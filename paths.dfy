/** The parts of Rust's `str`, `std::path` and the `substring` crate that the
    resolver relies on, stated on text. A path is its text; strings are
    sequences of characters and are taken to be ASCII, so a byte index and a
    character index coincide. */
module Paths {
  import opened Wrappers

  type Path = string

  predicate StartsWith(s: string, prefix: string) {
    |prefix| <= |s| && s[..|prefix|] == prefix
  }

  predicate EndsWith(s: string, suffix: string) {
    |suffix| <= |s| && s[|s| - |suffix|..] == suffix
  }

  /** `Path::is_absolute` on Unix: the path starts at the root. */
  predicate IsAbsolute(p: Path) {
    |p| > 0 && p[0] == '/'
  }

  /** `str::find` for one character: the index of its first occurrence. */
  function FindChar(s: string, c: char): (r: Option<nat>)
    ensures r.None? <==> c !in s
    ensures r.Some? ==> r.value < |s| && s[r.value] == c
                        && forall j :: 0 <= j < r.value ==> s[j] != c
  {
    if |s| == 0 then None
    else if s[0] == c then Some(0)
    else
      match FindChar(s[1..], c)
      case None => None
      case Some(i) => Some(i + 1)
  }

  /** The first occurrence is where `c` appears with none before it. */
  lemma FindCharAt(s: string, c: char, i: nat)
    requires i < |s| && s[i] == c
    requires forall j :: 0 <= j < i ==> s[j] != c
    ensures FindChar(s, c) == Some(i)
  {
  }

  /** The index of the last occurrence of `c`. */
  function FindLastChar(s: string, c: char): (r: Option<nat>)
    ensures r.None? <==> c !in s
    ensures r.Some? ==> r.value < |s| && s[r.value] == c
                        && forall j :: r.value < j < |s| ==> s[j] != c
  {
    if |s| == 0 then None
    else if s[|s| - 1] == c then Some(|s| - 1)
    else
      var r := FindLastChar(s[..|s| - 1], c);
      assert s == s[..|s| - 1] + [s[|s| - 1]];
      r
  }

  /** The last occurrence is where `c` appears with none after it. */
  lemma FindLastCharAt(s: string, c: char, i: nat)
    requires i < |s| && s[i] == c
    requires forall j :: i < j < |s| ==> s[j] != c
    ensures FindLastChar(s, c) == Some(i)
  {
  }

  /** `Substring::substring` of the `substring` crate: characters `start`
      (inclusive) to `end` (exclusive), both clamped to the length; empty when
      `end <= start`. */
  function Substring(s: string, start: nat, end: nat): (r: string)
    ensures start <= end <= |s| ==> r == s[start..end]
    ensures |r| <= |s|
  {
    if end <= start then ""
    else
      var a := if start < |s| then start else |s|;
      var b := if end < |s| then end else |s|;
      s[a..b]
  }

  /** `str::replace("*", with)`: every `*` is replaced by `with`. */
  function ReplaceStar(s: string, with: string): (r: string)
  {
    if s == [] then [] else (if s[0] == '*' then with else [s[0]]) + ReplaceStar(s[1..], with)
  }

  /** `Path::join` (through `PathBuf::push`): an absolute `child` replaces the
      base; otherwise a separator is put between them unless the base is
      empty or already ends with one. */
  function Join(base: Path, child: Path): (r: Path)
    ensures IsAbsolute(child) ==> r == child
    ensures !IsAbsolute(child) ==> StartsWith(r, base) && EndsWith(r, child)
    ensures IsAbsolute(base) ==> IsAbsolute(r)
  {
    if IsAbsolute(child) then child
    else if base == [] || base[|base| - 1] == '/' then base + child
    else base + "/" + child
  }

  /** The separator rule of `Path::join`: a relative `child` follows the base
      directly when the base is empty or ends with a separator, and after a
      new separator otherwise. */
  lemma JoinSeparator(base: Path, child: Path)
    requires !IsAbsolute(child)
    ensures base != [] && base[|base| - 1] != '/' ==> Join(base, child) == base + "/" + child
    ensures base == [] || base[|base| - 1] == '/' ==> Join(base, child) == base + child
  {
  }

  /** `std::path::Component` on Unix (there is no `Prefix` component there). */
  datatype Component = RootDir | CurDir | ParentDir | Normal(name: string)

  /** A name `Components` can yield as `Normal`. */
  predicate ValidName(n: string) {
    n != "" && n != "." && n != ".." && '/' !in n
  }

  predicate SlashFree(pieces: seq<string>) {
    forall i :: 0 <= i < |pieces| ==> '/' !in pieces[i]
  }

  /** Every `Normal` component carries a name `Components` can yield. */
  predicate NamesValid(cs: seq<Component>) {
    forall i :: 0 <= i < |cs| ==> cs[i].Normal? ==> ValidName(cs[i].name)
  }

  /** Components past the root: no root, and names `Components` can yield. */
  predicate BodyShaped(cs: seq<Component>) {
    forall i :: 0 <= i < |cs| ==> cs[i] != RootDir && (cs[i].Normal? ==> ValidName(cs[i].name))
  }

  /** The pieces of `s` between its separators. */
  function Pieces(s: string): (r: seq<string>)
    ensures |r| >= 1 && SlashFree(r)
    decreases |s|
  {
    match FindChar(s, '/')
    case None => [s]
    case Some(i) => [s[..i]] + Pieces(s[i + 1..])
  }

  /** The components of the pieces after the root: empty pieces (doubled or
      trailing separators) and `.` are dropped, except a `.` that starts a
      relative path. */
  function BodyComponents(pieces: seq<string>, first: bool): (r: seq<Component>)
    requires SlashFree(pieces)
    ensures BodyShaped(r)
  {
    if pieces == [] then []
    else
      var rest := BodyComponents(pieces[1..], false);
      if pieces[0] == "" then rest
      else if pieces[0] == "." then (if first then [CurDir] + rest else rest)
      else if pieces[0] == ".." then [ParentDir] + rest
      else [Normal(pieces[0])] + rest
  }

  /** `Path::components`. */
  function Components(p: Path): (r: seq<Component>)
    ensures if IsAbsolute(p) then |r| >= 1 && r[0] == RootDir && BodyShaped(r[1..]) else BodyShaped(r)
    ensures NamesValid(r)
  {
    if IsAbsolute(p) then [RootDir] + BodyComponents(Pieces(p[1..]), false)
    else BodyComponents(Pieces(p), true)
  }

  /** A relative path whose first component is `.`. */
  predicate StartsWithCurDir(p: Path) {
    |p| > 0 && p[0] == '.' && (|p| == 1 || p[1] == '/')
  }

  /** The length of the text before the first piece that `Components` reads
      as a name: the root, or the leading `.` of a relative path. */
  function BodyStart(p: Path): (b: nat)
    ensures b <= 1 && b <= |p|
    ensures b == 1 <==> IsAbsolute(p) || StartsWithCurDir(p)
  {
    if IsAbsolute(p) || StartsWithCurDir(p) then 1 else 0
  }

  /** `p` split at its last separator past `b`: the text before that
      separator, and the piece after it (the whole text past `b` when there
      is no separator there). */
  function SplitLast(p: Path, b: nat): (r: (Path, string))
    requires b < |p|
    ensures b <= |r.0| < |p| && r.0 == p[..|r.0|]
    ensures '/' !in r.1 && EndsWith(p, r.1)
  {
    match FindLastChar(p[b..], '/')
    case None => (p[..b], p[b..])
    case Some(i) =>
      assert forall j :: b + i < j < |p| ==> p[b..][j - b] == p[j];
      (p[..b + i], p[b + i + 1..])
  }

  /** `p` split after its first piece: the piece, and the text after the
      separator that ends it. */
  function SplitFirst(p: Path): (r: (string, Path))
    requires p != []
    ensures |r.1| < |p| && '/' !in r.0
  {
    match FindChar(p, '/')
    case None => (p, [])
    case Some(i) => (p[..i], p[i + 1..])
  }

  /** The trimming on the right of `Components::as_path`: trailing empty and
      `.` pieces past `b` are dropped with their separators. */
  function TrimBack(p: Path, b: nat): (r: Path)
    requires b <= |p|
    ensures b <= |r| <= |p| && r == p[..|r|]
    ensures |r| == b || (var piece := SplitLast(r, b).1; piece != "" && piece != ".")
    decreases |p|
  {
    if |p| == b then p
    else
      var (before, piece) := SplitLast(p, b);
      if piece == "" || piece == "." then TrimBack(before, b) else p
  }

  /** The trimming on the left of `Components::as_path`: leading empty and
      `.` pieces are dropped with their separators. */
  function TrimFront(p: Path): (r: Path)
    ensures |r| <= |p|
    ensures r == [] || (var piece := SplitFirst(r).0; piece != "" && piece != ".")
    decreases |p|
  {
    if p == [] then p
    else
      var (piece, rest) := SplitFirst(p);
      if piece == "" || piece == "." then TrimFront(rest) else p
  }

  /** `Path::parent`: the path without its last component, as the text
      `Components::as_path` leaves. The root and the empty path have none; a
      lone `.` or a single name has the empty path. */
  function Parent(p: Path): (r: Option<Path>)
    ensures r.Some? ==> |r.value| < |p| && r.value == p[..|r.value|]
    ensures r.Some? && IsAbsolute(p) ==> IsAbsolute(r.value)
    ensures IsAbsolute(p) ==> (r.None? <==> TrimBack(p, 1) == "/")
    ensures !IsAbsolute(p) ==> (r.None? <==> p == [])
  {
    if |TrimBack(p, BodyStart(p))| > BodyStart(p) then
      Some(ParentPast(TrimBack(p, BodyStart(p)), BodyStart(p)))
    else if StartsWithCurDir(p) then
      Some([])
    else
      if !IsAbsolute(p) && p != [] then
        NoNameLeftOnlyWhenEmpty(p);
        None
      else None
  }

  /** The parent of `q`, which ends in a name past `b`: the text before its
      last separator, trimmed on the right. */
  function ParentPast(q: Path, b: nat): (r: Path)
    requires b < |q|
    ensures b <= |r| < |q| && r == q[..|r|]
  {
    TrimBack(SplitLast(q, b).0, b)
  }

  /** A relative path that does not start with `.` keeps its first piece,
      which is a name, through the trimming on the right. */
  lemma {:induction false} NoNameLeftOnlyWhenEmpty(p: Path)
    requires p != [] && !IsAbsolute(p) && !StartsWithCurDir(p)
    ensures TrimBack(p, 0) != []
    decreases |p|
  {
    var (before, piece) := SplitLast(p, 0);
    if piece == "" || piece == "." {
      match FindLastChar(p, '/')
      case None =>
      case Some(i) =>
        assert p[0..] == p;
        assert before == p[..i];
        assert i > 0;
        NoNameLeftOnlyWhenEmpty(before);
    }
  }

  /** `PathBuf::pop`: truncates the path to its parent; a path without a
      parent is left as it is. */
  function Pop(p: Path): (r: Path)
    ensures |r| <= |p|
  {
    match Parent(p)
    case Some(q) => q
    case None => p
  }

  /** The body text left once `Components::next` has yielded `k` more
      components from `body`. */
  function DropComponents(body: Path, k: nat): (r: Path)
    ensures |r| <= |body|
    decreases |body|
  {
    if k == 0 || body == [] then body
    else
      var (piece, rest) := SplitFirst(body);
      DropComponents(rest, if piece == "" || piece == "." then k else k - 1)
  }

  /** `Components::as_path` once `k` components have been taken from the
      front of `p`: the rest, with empty and `.` pieces trimmed at both ends
      (at the right end only, when nothing was taken). */
  function RestAfter(p: Path, k: nat): (r: Path)
    ensures |r| <= |p|
    ensures |r| > 1 ==> r[|r| - 1] != '/'
  {
    if k == 0 then
      TrimBackEndsInName(p, BodyStart(p));
      TrimBack(p, BodyStart(p))
    else if BodyStart(p) == 0 then
      TrimBackEndsInName(TrimFront(DropComponents(p, k)), 0);
      TrimBack(TrimFront(DropComponents(p, k)), 0)
    else
      TrimBackEndsInName(TrimFront(DropComponents(p[1..], k - 1)), 0);
      TrimBack(TrimFront(DropComponents(p[1..], k - 1)), 0)
  }

  /** `Path::strip_prefix`: when the components of `prefix` begin those of
      `path`, the rest of `path` after them. Only the root keeps a trailing
      separator. */
  function StripPathPrefix(path: Path, prefix: Path): (r: Option<Path>)
    ensures r.Some? <==> Components(prefix) <= Components(path)
    ensures r.Some? ==> |r.value| <= |path|
    ensures r.Some? && |r.value| > 1 ==> r.value[|r.value| - 1] != '/'
  {
    if Components(prefix) <= Components(path) then
      Some(RestAfter(path, |Components(prefix)|))
    else None
  }

  /** Past `b`, what the trimming on the right leaves ends in a name, not a
      separator. */
  lemma TrimBackEndsInName(p: Path, b: nat)
    requires b <= |p|
    ensures var r := TrimBack(p, b); |r| > b ==> r[|r| - 1] != '/'
  {
    var r := TrimBack(p, b);
    if |r| > b {
      var piece := SplitLast(r, b).1;
      assert r[|r| - 1] == piece[|piece| - 1];
      assert piece[|piece| - 1] in piece;
    }
  }

  /** The first piece of `a` + `/` + `rest`, when `a` has no separator, is `a`. */
  lemma SplitFirstAt(a: string, rest: Path)
    requires '/' !in a
    ensures SplitFirst(a + "/" + rest) == (a, rest)
  {
    var s := a + "/" + rest;
    forall j | 0 <= j < |a|
      ensures s[j] != '/'
    {
      assert s[j] == a[j];
    }
    FindCharAt(s, '/', |a|);
    assert s[..|a|] == a && s[|a| + 1..] == rest;
  }

  /** The last piece of `a` + `/` + `n`, when `n` has no separator, is `n`. */
  lemma SplitLastAt(a: Path, n: string, b: nat)
    requires b <= |a| && '/' !in n
    ensures SplitLast(a + "/" + n, b) == (a, n)
  {
    var s := a + "/" + n;
    var t := s[b..];
    assert t[|a| - b] == '/';
    forall j | |a| - b < j < |t|
      ensures t[j] != '/'
    {
      assert t[j] == n[j - (|a| - b) - 1];
    }
    FindLastCharAt(t, '/', |a| - b);
    assert s[..|a|] == a && s[|a| + 1..] == n;
  }

  /** With no separator past `b`, the last piece is all of the text past `b`. */
  lemma SplitLastWhole(p: Path, b: nat)
    requires b < |p| && '/' !in p[b..]
    ensures SplitLast(p, b) == (p[..b], p[b..])
  {
  }

  /** When the trimming on the right leaves a name, `parent` drops it. */
  lemma ParentDropsLastName(p: Path, b: nat)
    requires b == BodyStart(p) && |p| > b && TrimBack(p, b) == p
    ensures Parent(p) == Some(TrimBack(SplitLast(p, b).0, b))
  {
  }

  /** A trailing `.` piece is trimmed on the right. */
  lemma TrimBackCurDir(a: Path, b: nat)
    requires b <= |a|
    ensures TrimBack(a + "/" + ".", b) == TrimBack(a, b)
  {
    SplitLastAt(a, ".", b);
  }

  /** A trailing empty piece is trimmed on the right. */
  lemma TrimBackSeparator(a: Path, b: nat)
    requires b <= |a|
    ensures TrimBack(a + "/", b) == TrimBack(a, b)
  {
    assert a + "/" == a + "/" + "";
    SplitLastAt(a, "", b);
  }

  /** A trailing name is kept. */
  lemma TrimBackName(a: Path, n: string, b: nat)
    requires b <= |a| && ValidName(n)
    ensures TrimBack(a + "/" + n, b) == a + "/" + n
    ensures SplitLast(a + "/" + n, b).0 == a
  {
    SplitLastAt(a, n, b);
  }

  /** A lone name past `b` is kept. */
  lemma TrimBackWholeName(p: Path, b: nat)
    requires b <= |p| && ValidName(p[b..])
    ensures TrimBack(p, b) == p
  {
    SplitLastWhole(p, b);
  }

  /** `Path::parent` drops `.` components: the parent of `dir/./name` is
      `dir`, for an absolute `dir` that ends in a name or is the root. */
  lemma ParentSkipsCurDir(dir: Path, name: string)
    requires IsAbsolute(dir) && TrimBack(dir, 1) == dir && ValidName(name)
    ensures Parent(dir + "/" + "." + "/" + name) == Some(dir)
  {
    var p := dir + "/" + "." + "/" + name;
    TrimBackName(dir + "/" + ".", name, 1);
    assert p[0] == dir[0];
    assert BodyStart(p) == 1;
    ParentDropsLastName(p, 1);
    TrimBackCurDir(dir, 1);
  }

  /** The root followed by `.` is the root, which has no parent. */
  lemma ParentOfRootCurDir()
    ensures Parent("/.") == None
  {
    assert "/."[1..] == ".";
    SplitLastWhole("/.", 1);
    assert "/."[..1] == "/";
    assert BodyStart("/.") == 1 && TrimBack("/.", 1) == "/";
  }

  /** A trailing separator is no component: the parent of `pkg/sub/` is `pkg`. */
  lemma ParentSkipsTrailingSeparator()
    ensures Parent("pkg/sub/") == Some("pkg")
  {
    var pkg := "pkg";
    var q := pkg + "/" + "sub" + "/";
    assert q == "pkg/sub/";
    assert ValidName("sub") && ValidName(pkg);
    assert BodyStart(q) == 0;
    TrimBackSeparator(pkg + "/" + "sub", 0);
    TrimBackName(pkg, "sub", 0);
    assert pkg[0..] == pkg;
    TrimBackWholeName(pkg, 0);
    assert TrimBack(q, 0) == pkg + "/" + "sub";
  }

  /** A single name is a single `Normal` component. */
  lemma ComponentsOfName(a: string)
    requires ValidName(a)
    ensures Components(a) == [Normal(a)]
  {
    assert a[0] in a;
    assert FindChar(a, '/') == None;
    assert Pieces(a) == [a];
    assert [a][1..] == [];
    assert BodyComponents([a], true) == [Normal(a)] + BodyComponents([], false);
  }

  /** A relative path that starts with a name starts with its component. */
  lemma ComponentsStartWithName(a: string, rest: Path)
    requires ValidName(a)
    ensures Components(a + "/" + rest) == [Normal(a)] + BodyComponents(Pieces(rest), false)
  {
    var s := a + "/" + rest;
    assert a[0] in a && s[0] == a[0];
    assert |a| > 1 ==> s[1] == a[1] && a[1] in a;
    PiecesCons(a, rest);
    assert ([a] + Pieces(rest))[1..] == Pieces(rest);
  }

  /** Below a package name, `strip_prefix` gives the name that follows,
      without the trailing separator. */
  lemma StripPathPrefixBelowName(a: string, c: string)
    requires ValidName(a) && ValidName(c)
    ensures StripPathPrefix(a + "/" + c + "/", a) == Some(c)
  {
    var s := a + "/" + (c + "/");
    assert s == a + "/" + c + "/";
    ComponentsOfName(a);
    ComponentsOfNameSlash(a, c);
    assert Components(a) <= Components(s);
    RestAfterName(a, c);
  }

  /** The components of a name, a separator, a name and a separator. */
  lemma ComponentsOfNameSlash(a: string, c: string)
    requires ValidName(a) && ValidName(c)
    ensures Components(a + "/" + (c + "/")) == [Normal(a), Normal(c)]
  {
    ComponentsStartWithName(a, c + "/");
    PiecesNameSlash(c);
    BodyComponentsName(c);
    assert [Normal(a)] + [Normal(c)] == [Normal(a), Normal(c)];
  }

  /** A name and a separator are two pieces: the name and the empty one. */
  lemma PiecesNameSlash(c: string)
    requires ValidName(c)
    ensures Pieces(c + "/") == [c, ""]
  {
    assert c + "/" == c + "/" + "";
    PiecesCons(c, "");
    assert Pieces("") == [""];
  }

  /** A trailing empty piece is no component. */
  lemma BodyComponentsName(c: string)
    requires ValidName(c)
    ensures BodyComponents([c, ""], false) == [Normal(c)]
  {
    assert [c, ""][1..] == [""];
    assert BodyComponents([""], false) == [];
  }

  /** Once the first name is taken, what is left of `a/c/` is `c`. */
  lemma RestAfterName(a: string, c: string)
    requires ValidName(a) && ValidName(c)
    ensures RestAfter(a + "/" + (c + "/"), 1) == c
  {
    var s := a + "/" + (c + "/");
    assert a[0] in a && s[0] == a[0];
    assert |a| > 1 ==> s[1] == a[1] && a[1] in a;
    assert BodyStart(s) == 0;
    DropFirstName(a, c + "/");
    TrimNameSlash(c);
    RestAfterOne(s, c + "/");
  }

  /** With nothing before the first name, what is left after one component
      is the text past it, trimmed at both ends. */
  lemma RestAfterOne(p: Path, rest: Path)
    requires BodyStart(p) == 0 && DropComponents(p, 1) == rest
    ensures RestAfter(p, 1) == TrimBack(TrimFront(rest), 0)
  {
  }

  /** Taking one component from a relative path that starts with a name
      leaves the text after its separator. */
  lemma DropFirstName(a: string, rest: Path)
    requires ValidName(a)
    ensures DropComponents(a + "/" + rest, 1) == rest
  {
    SplitFirstAt(a, rest);
  }

  /** A name followed by a separator: nothing to trim on the left, and the
      separator is trimmed on the right. */
  lemma TrimNameSlash(c: string)
    requires ValidName(c)
    ensures TrimFront(c + "/") == c + "/"
    ensures TrimBack(c + "/", 0) == c
  {
    assert c + "/" == c + "/" + "";
    SplitFirstAt(c, "");
    SplitLastAt(c, "", 0);
    SplitLastWhole(c, 0);
    assert c[0..] == c && c[..0] == "";
  }

  /** A path that starts with another name is not below `a`. */
  lemma StripPathPrefixOtherName(a: string, c: string, rest: Path)
    requires ValidName(a) && ValidName(c) && a != c
    ensures StripPathPrefix(c + "/" + rest, a) == None
  {
    ComponentsOfName(a);
    ComponentsStartWithName(c, rest);
    var cs := Components(c + "/" + rest);
    assert cs[0] == Normal(c) != Normal(a);
    assert !([Normal(a)] <= cs);
  }

  /** `Path::strip_prefix` trims the rest: `pkg/sub/` below `pkg` is `sub`. */
  lemma StripPathPrefixExample()
    ensures StripPathPrefix("pkg/sub/", "pkg") == Some("sub")
  {
    assert ValidName("pkg") && ValidName("sub");
    assert "pkg/sub" == "pkg" + "/" + "sub";
    assert "pkg/sub/" == "pkg/sub" + "/";
    StripPathPrefixBelowName("pkg", "sub");
  }

  /** `Path::strip_prefix` compares components, not text: `pkg` is no prefix
      of `pkgx/a`. */
  lemma StripPathPrefixTextIsNotEnough()
    ensures StripPathPrefix("pkgx/a", "pkg") == None
  {
    var s := "pkgx" + "/" + "a";
    StripPathPrefixOtherName("pkg", "pkgx", "a");
    assert s == "pkgx/a";
  }

  /** The pieces of `a` + `/` + `rest`, when `a` has no separator. */
  lemma PiecesCons(a: string, rest: Path)
    requires '/' !in a
    ensures Pieces(a + "/" + rest) == [a] + Pieces(rest)
  {
    SplitFirstAt(a, rest);
  }

  lemma {:induction false} ReplaceStarConcat(a: string, b: string, with: string)
    ensures ReplaceStar(a + b, with) == ReplaceStar(a, with) + ReplaceStar(b, with)
  {
    if a != [] {
      assert (a + b)[1..] == a[1..] + b;
      ReplaceStarConcat(a[1..], b, with);
    } else {
      assert a + b == b;
    }
  }

  lemma {:induction false} ReplaceStarNoStar(s: string, with: string)
    requires '*' !in s
    ensures ReplaceStar(s, with) == s
  {
    if s != [] {
      ReplaceStarNoStar(s[1..], with);
    }
  }

  lemma {:induction false} ReplaceStarLeavesNoStar(s: string, with: string)
    requires '*' !in with
    ensures '*' !in ReplaceStar(s, with)
  {
    if s != [] {
      ReplaceStarLeavesNoStar(s[1..], with);
    }
  }
}
