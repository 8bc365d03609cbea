/** `normalize_path` (src/node_resolve.rs:374-396): the lexical clean-up used
    instead of canonicalisation when symlinks are preserved. It walks the
    components of a path and rebuilds it on a `PathBuf` that starts at `/`:
    the root resets it, `..` pops, `.` is skipped and a name is pushed. */
module Normalize {
  import opened Wrappers
  import opened Paths

  predicate ValidNames(names: seq<string>) {
    forall i :: 0 <= i < |names| ==> ValidName(names[i])
  }

  /** The absolute path whose components after the root are `names`, built
      the way `PathBuf::push` builds it. */
  function Render(names: seq<string>): (r: Path)
    ensures IsAbsolute(r)
  {
    if names == [] then "/" else Join(Render(names[..|names| - 1]), names[|names| - 1])
  }

  /** The effect of one component on the names of the path built so far. */
  function Step(names: seq<string>, c: Component): seq<string> {
    match c
    case RootDir => []
    case CurDir => names
    case ParentDir => if names == [] then [] else names[..|names| - 1]
    case Normal(n) => names + [n]
  }

  /** The names left after applying `cs` in order, starting from `start`. */
  function Apply(start: seq<string>, cs: seq<Component>): seq<string> {
    if cs == [] then start else Step(Apply(start, cs[..|cs| - 1]), cs[|cs| - 1])
  }

  /** What `normalize_path` returns. */
  function NormalizedPath(p: Path): Path {
    Render(Apply([], Components(p)))
  }

  /** The components `Normal(n)` of `names`, in order. */
  function Normals(names: seq<string>): (r: seq<Component>)
    ensures |r| == |names| && forall i :: 0 <= i < |names| ==> r[i] == Normal(names[i])
  {
    if names == [] then [] else Normals(names[..|names| - 1]) + [Normal(names[|names| - 1])]
  }

  /** `normalize_path` as the source writes it: a loop over the components that
      pushes onto and pops from a path which starts as `/`. */
  method NormalizePath(p: Path) returns (normalized: Path)
    ensures normalized == NormalizedPath(p)
  {
    normalized := "/";
    ghost var names: seq<string> := [];
    var parts := Components(p);
    for i := 0 to |parts|
      invariant names == Apply([], parts[..i])
      invariant ValidNames(names)
      invariant normalized == Render(names)
    {
      assert parts[..i + 1][..i] == parts[..i];
      RenderStep(names, parts[i]);
      match parts[i] {
        case RootDir =>
          normalized := Join(normalized, "/");
        case ParentDir =>
          normalized := Pop(normalized);
        case CurDir =>
        case Normal(name) =>
          normalized := Join(normalized, name);
      }
      names := Step(names, parts[i]);
    }
    assert parts[..|parts|] == parts;
  }

  /** What each component does to the path text matches what it does to the
      names: push for a name, pop for `..`, reset for the root. */
  lemma RenderStep(names: seq<string>, c: Component)
    requires ValidNames(names) && (c.Normal? ==> ValidName(c.name))
    ensures ValidNames(Step(names, c))
    ensures Render(Step(names, c)) ==
              match c
              case RootDir => Join(Render(names), "/")
              case ParentDir => Pop(Render(names))
              case CurDir => Render(names)
              case Normal(n) => Join(Render(names), n)
  {
    match c
    case ParentDir => PopRender(names);
    case Normal(n) => assert (names + [n])[..|names|] == names;
    case _ =>
  }

  lemma {:induction false} RenderShape(names: seq<string>)
    requires ValidNames(names) && names != []
    ensures |Render(names)| > 1 && Render(names)[|Render(names)| - 1] != '/'
  {
    var n := names[|names| - 1];
    assert ValidName(n);
  }

  /** The last separator of a built path comes right before its last name. */
  lemma RenderSplitLast(names: seq<string>)
    requires ValidNames(names) && names != []
    ensures SplitLast(Render(names), 1) == (Render(names[..|names| - 1]), names[|names| - 1])
  {
    var init, n := names[..|names| - 1], names[|names| - 1];
    assert ValidName(n);
    assert n[0] in n;
    if init == [] {
      assert Render(init) == "/";
      SplitLastAfterRoot(n);
    } else {
      RenderShape(init);
      SplitLastAfterName(Render(init), n);
    }
  }

  lemma SplitLastAfterRoot(n: string)
    requires ValidName(n)
    ensures SplitLast("/" + n, 1) == ("/", n)
  {
    var s := "/" + n;
    assert s[1..] == n && s[..1] == "/";
  }

  lemma SplitLastAfterName(q: Path, n: string)
    requires |q| > 1 && q[0] == '/' && ValidName(n)
    ensures SplitLast(q + "/" + n, 1) == (q, n)
  {
    var s := q + "/" + n;
    var t := s[1..];
    assert t[|q| - 1] == '/';
    forall j | |q| - 1 < j < |t|
      ensures t[j] != '/'
    {
      assert t[j] == n[j - |q|];
    }
    FindLastCharAt(t, '/', |q| - 1);
    assert s[..|q|] == q && s[|q| + 1..] == n;
  }

  /** A built path has nothing for the trimming on the right to drop. */
  lemma RenderTrimBack(names: seq<string>)
    requires ValidNames(names)
    ensures TrimBack(Render(names), 1) == Render(names)
  {
    if names != [] {
      RenderSplitLast(names);
      assert ValidName(names[|names| - 1]);
    }
  }

  /** Popping the path of `names` gives the path of all but the last name; the
      root has nothing to pop. */
  lemma PopRender(names: seq<string>)
    requires ValidNames(names)
    ensures Pop(Render(names)) == Render(if names == [] then [] else names[..|names| - 1])
  {
    RenderTrimBack(names);
    if names != [] {
      var init := names[..|names| - 1];
      RenderSplitLast(names);
      RenderTrimBack(init);
    }
  }

  lemma {:induction false} ApplyConcat(start: seq<string>, a: seq<Component>, b: seq<Component>)
    ensures Apply(start, a + b) == Apply(Apply(start, a), b)
  {
    if b == [] {
      assert a + b == a;
    } else {
      assert (a + b)[..|a + b| - 1] == a + b[..|b| - 1];
      ApplyConcat(start, a, b[..|b| - 1]);
    }
  }

  lemma {:induction false} ApplyValid(start: seq<string>, cs: seq<Component>)
    requires ValidNames(start)
    requires NamesValid(cs)
    ensures ValidNames(Apply(start, cs))
  {
    if cs != [] {
      ApplyValid(start, cs[..|cs| - 1]);
      RenderStep(Apply(start, cs[..|cs| - 1]), cs[|cs| - 1]);
    }
  }

  lemma {:induction false} ApplyNormals(start: seq<string>, names: seq<string>)
    ensures Apply(start, Normals(names)) == start + names
  {
    if names == [] {
      assert start + names == start;
    } else {
      var init := names[..|names| - 1];
      ApplyNormals(start, init);
      assert Normals(names)[..|names| - 1] == Normals(init);
      assert start + names == (start + init) + [names[|names| - 1]];
    }
  }

  /** Splitting at a separator with none before it. */
  lemma PiecesAt(s: string, i: nat)
    requires i < |s| && s[i] == '/'
    requires forall j :: 0 <= j < i ==> s[j] != '/'
    ensures Pieces(s) == [s[..i]] + Pieces(s[i + 1..])
  {
    FindCharAt(s, '/', i);
  }

  /** Appending a last piece leaves the first separator where it was. */
  lemma PiecesSplitFirst(s: string, n: string, i: nat)
    requires i < |s| && s[i] == '/'
    requires forall j :: 0 <= j < i ==> s[j] != '/'
    ensures Pieces(s + "/" + n) == [s[..i]] + Pieces(s[i + 1..] + "/" + n)
  {
    var t := s + "/" + n;
    assert t[..i] == s[..i];
    assert t[i + 1..] == s[i + 1..] + "/" + n;
    PiecesAt(t, i);
  }

  lemma ConsSnoc(h: string, p: seq<string>, n: string)
    ensures [h] + (p + [n]) == ([h] + p) + [n]
  {
  }

  lemma {:induction false} PiecesSnoc(s: string, n: string)
    requires '/' !in n
    ensures Pieces(s + "/" + n) == Pieces(s) + [n]
    decreases |s|
  {
    var f := FindChar(s, '/');
    if f.None? {
      PiecesAt(s + "/" + n, |s|);
      assert (s + "/" + n)[..|s|] == s && (s + "/" + n)[|s| + 1..] == n;
    } else {
      var i := f.value;
      PiecesSnoc(s[i + 1..], n);
      PiecesSplitFirst(s, n, i);
      PiecesAt(s, i);
      ConsSnoc(s[..i], Pieces(s[i + 1..]), n);
    }
  }

  lemma {:induction false} BodyComponentsSnoc(pieces: seq<string>, first: bool, n: string)
    requires SlashFree(pieces)
    requires ValidName(n)
    ensures BodyComponents(pieces + [n], first) == BodyComponents(pieces, first) + [Normal(n)]
  {
    if pieces == [] {
      assert pieces + [n] == [n];
    } else {
      assert (pieces + [n])[1..] == pieces[1..] + [n];
      BodyComponentsSnoc(pieces[1..], false, n);
    }
  }

  /** A rendered path reads back as the root followed by its names. */
  lemma {:induction false} ComponentsOfRender(names: seq<string>)
    requires ValidNames(names)
    ensures Components(Render(names)) == [RootDir] + Normals(names)
  {
    if names == [] {
      assert Render(names)[1..] == "";
      assert Pieces("") == [""];
      assert BodyComponents([""], false) == [];
    } else {
      var init, n := names[..|names| - 1], names[|names| - 1];
      assert ValidName(n);
      if init == [] {
        assert Render(names) == "/" + n;
        assert Render(names)[1..] == n;
        assert Pieces(n) == [n];
        assert [n] == [] + [n];
        BodyComponentsSnoc([], false, n);
      } else {
        RenderShape(init);
        var q := Render(init);
        assert Render(names) == q + "/" + n;
        assert Render(names)[1..] == q[1..] + "/" + n;
        PiecesSnoc(q[1..], n);
        BodyComponentsSnoc(Pieces(q[1..]), false, n);
        ComponentsOfRender(init);
      }
    }
  }

  /** `normalize_path` always returns an absolute path whose components after
      the root are plain names: no `.`, no `..`, no empty component. */
  lemma NormalizedPathIsClean(p: Path)
    ensures IsAbsolute(NormalizedPath(p))
    ensures var cs := Components(NormalizedPath(p));
            |cs| >= 1 && cs[0] == RootDir
            && forall i :: 1 <= i < |cs| ==> cs[i].Normal? && ValidName(cs[i].name)
  {
    var names := Apply([], Components(p));
    ApplyValid([], Components(p));
    ComponentsOfRender(names);
  }

  /** Normalising a normalised path changes nothing. */
  lemma NormalizedPathIdempotent(p: Path)
    ensures NormalizedPath(NormalizedPath(p)) == NormalizedPath(p)
  {
    var names := Apply([], Components(p));
    ApplyValid([], Components(p));
    ComponentsOfRender(names);
    ApplyConcat([], [RootDir], Normals(names));
    assert Apply([], [RootDir]) == [];
    ApplyNormals([], names);
    assert [] + names == names;
  }

  lemma ComponentsAfterRoot(rest: string)
    ensures Components("/" + rest) == [RootDir] + BodyComponents(Pieces(rest), false)
  {
    assert ("/" + rest)[1..] == rest;
  }

  lemma ComponentsAfterRootParent(rest: string)
    ensures Components("/../" + rest) == [RootDir, ParentDir] + BodyComponents(Pieces(rest), false)
  {
    var t := "../" + rest;
    var body := BodyComponents(Pieces(rest), false);
    assert "/../" + rest == "/" + t;
    assert Components("/" + t) == [RootDir] + BodyComponents(Pieces(t), false) by {
      ComponentsAfterRoot(t);
    }
    assert BodyComponents(Pieces(t), false) == [ParentDir] + body by {
      PiecesAfterParent(rest);
      BodyComponentsParent(Pieces(rest));
    }
    assert [RootDir] + ([ParentDir] + body) == [RootDir, ParentDir] + body;
  }

  lemma PiecesAfterParent(rest: string)
    ensures Pieces("../" + rest) == [".."] + Pieces(rest)
  {
    var t := "../" + rest;
    assert t[0] == '.' && t[1] == '.' && t[2] == '/';
    PiecesAt(t, 2);
    assert t[..2] == ".." && t[3..] == rest;
  }

  lemma BodyComponentsParent(pieces: seq<string>)
    requires SlashFree(pieces)
    ensures BodyComponents([".."] + pieces, false) == [ParentDir] + BodyComponents(pieces, false)
  {
    assert ([".."] + pieces)[1..] == pieces;
  }

  /** `..` at the root stays at the root. */
  lemma ParentDirAtRoot(rest: string)
    ensures NormalizedPath("/../" + rest) == NormalizedPath("/" + rest)
  {
    var body := BodyComponents(Pieces(rest), false);
    ComponentsAfterRoot(rest);
    ComponentsAfterRootParent(rest);
    ApplyConcat([], [RootDir, ParentDir], body);
    ApplyConcat([], [RootDir], body);
    assert [RootDir, ParentDir][..1] == [RootDir];
    assert Apply([], [RootDir, ParentDir]) == [];
    assert Apply([], [RootDir]) == [];
  }
}
