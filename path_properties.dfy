/** What `Path::parent` and `Path::strip_prefix` compute, stated against
    `Path::components`: the parent has every component but the last, and
    the components of the prefix followed by those of the remainder are the
    components of the path. */
module PathProperties {
  import opened Wrappers
  import opened Paths

  /** The components `Components` reads before the first piece of the body:
      the root, or the `.` that starts a relative path. */
  function Head(p: Path): (h: seq<Component>)
    ensures |h| == BodyStart(p)
  {
    if IsAbsolute(p) then [RootDir] else if StartsWithCurDir(p) then [CurDir] else []
  }

  /** The components of the pieces of a body text. */
  function Body(t: string): seq<Component> {
    BodyComponents(Pieces(t), false)
  }

  /** The components of a single piece: none for an empty piece or `.`. */
  function PieceComponents(piece: string): seq<Component>
    requires '/' !in piece
  {
    BodyComponents([piece], false)
  }

  /** A piece other than the empty one and `.` is one component. */
  lemma PieceComponentsOfName(piece: string)
    requires '/' !in piece && piece != "" && piece != "."
    ensures PieceComponents(piece) == [if piece == ".." then ParentDir else Normal(piece)]
  {
    assert [piece][1..] == [];
    assert BodyComponents([], false) == [];
  }

  /** The empty piece and `.` are no component. */
  lemma PieceComponentsOfNothing(piece: string)
    requires piece == "" || piece == "."
    ensures PieceComponents(piece) == []
  {
    assert [piece][1..] == [];
    assert BodyComponents([], false) == [];
  }

  lemma BodyComponentsCons(x: string, ys: seq<string>)
    requires '/' !in x && SlashFree(ys)
    ensures BodyComponents([x] + ys, false) == BodyComponents([x], false) + BodyComponents(ys, false)
  {
    assert ([x] + ys)[1..] == ys;
    assert [x][1..] == [];
  }

  lemma {:induction false} BodyComponentsSnoc(xs: seq<string>, y: string)
    requires SlashFree(xs) && '/' !in y
    ensures BodyComponents(xs + [y], false) == BodyComponents(xs, false) + BodyComponents([y], false)
  {
    if xs != [] {
      assert (xs + [y])[1..] == xs[1..] + [y];
      BodyComponentsSnoc(xs[1..], y);
      BodyComponentsCons(xs[0], xs[1..] + [y]);
      BodyComponentsCons(xs[0], xs[1..]);
      assert [xs[0]] + xs[1..] == xs;
      assert xs + [y] == [xs[0]] + (xs[1..] + [y]);
    } else {
      assert xs + [y] == [y];
    }
  }

  /** A piece with no separator is one piece. */
  lemma PiecesOfPiece(n: string)
    requires '/' !in n
    ensures Pieces(n) == [n]
  {
  }

  /** The pieces of `a` + `/` + `n`, when `n` has no separator. */
  lemma {:induction false} PiecesSnoc(a: string, n: string)
    requires '/' !in n
    ensures Pieces(a + "/" + n) == Pieces(a) + [n]
    decreases |a|
  {
    match FindChar(a, '/')
    case None =>
      PiecesCons(a, n);
      PiecesOfPiece(n);
    case Some(i) =>
      var first, rest := a[..i], a[i + 1..];
      assert a == first + "/" + rest;
      assert '/' !in first by {
        forall j | 0 <= j < |first| ensures first[j] != '/' { assert first[j] == a[j]; }
      }
      assert a + "/" + n == first + "/" + (rest + "/" + n);
      PiecesSnoc(rest, n);
      PiecesSnocStep(first, rest, rest + "/" + n, n);
  }

  /** One step of `PiecesSnoc`: a first piece in front of both sides. */
  lemma PiecesSnocStep(first: string, rest: string, tail: string, n: string)
    requires '/' !in first && Pieces(tail) == Pieces(rest) + [n]
    ensures Pieces(first + "/" + tail) == Pieces(first + "/" + rest) + [n]
  {
    PiecesCons(first, tail);
    PiecesCons(first, rest);
  }

  /** `Components` reads the head, then the pieces of the body. */
  lemma ComponentsSplit(p: Path)
    ensures Components(p) == Head(p) + Body(p[BodyStart(p)..])
  {
    if IsAbsolute(p) {
    } else if StartsWithCurDir(p) {
      ComponentsSplitCurDir(p);
    } else {
      assert p[0..] == p;
      ComponentsSplitPlain(p);
    }
  }

  lemma ComponentsSplitCurDir(p: Path)
    requires StartsWithCurDir(p)
    ensures Components(p) == [CurDir] + Body(p[1..])
  {
    if |p| == 1 {
      assert p == ".";
      PiecesOfPiece(".");
      assert p[1..] == "";
      assert Pieces("") == [""];
      assert BodyComponents([], false) == [];
    } else {
      var rest := p[2..];
      assert p == "." + "/" + rest;
      PiecesCons(".", rest);
      assert (["."] + Pieces(rest))[1..] == Pieces(rest);
      assert p[1..] == "" + "/" + rest;
      PiecesCons("", rest);
      assert ([""] + Pieces(rest))[1..] == Pieces(rest);
    }
  }

  lemma ComponentsSplitPlain(p: Path)
    requires !IsAbsolute(p) && !StartsWithCurDir(p)
    ensures Components(p) == Body(p)
  {
  }
  /** Splitting off the last piece splits off its components. */
  lemma SplitLastBody(p: Path, b: nat)
    requires b < |p|
    ensures var (before, piece) := SplitLast(p, b);
            b <= |before| && Body(p[b..]) == Body(before[b..]) + PieceComponents(piece)
  {
    var (before, piece) := SplitLast(p, b);
    match FindLastChar(p[b..], '/')
    case None =>
      assert before[b..] == "";
      assert Pieces("") == [""];
      PiecesOfPiece(piece);
    case Some(i) =>
      assert p[b..] == before[b..] + "/" + piece;
      PiecesSnoc(before[b..], piece);
      BodyComponentsSnoc(Pieces(before[b..]), piece);
  }

  /** The trimming on the right keeps the components of the body. */
  lemma {:induction false} TrimBackBody(p: Path, b: nat)
    requires b <= |p|
    ensures Body(TrimBack(p, b)[b..]) == Body(p[b..])
    decreases |p|
  {
    if |p| > b {
      var split := SplitLast(p, b);
      var before, piece := split.0, split.1;
      if piece == "" || piece == "." {
        assert TrimBack(p, b) == TrimBack(before, b);
        assert Body(p[b..]) == Body(before[b..]) by {
          SplitLastBody(p, b);
          PieceComponentsOfNothing(piece);
        }
        TrimBackBody(before, b);
      }
    }
  }

  /** What the trimming on the right leaves of a prefix of `p` has the head
      of `p`. */
  lemma TrimmedPrefixHead(p: Path, q: Path)
    requires BodyStart(p) <= |q| <= |p| && q == p[..|q|]
    ensures var r := TrimBack(q, BodyStart(p));
            BodyStart(r) == BodyStart(p) && Head(r) == Head(p) && r == p[..|r|]
  {
    var b := BodyStart(p);
    var r := TrimBack(q, b);
    assert r == p[..|r|];
  }

  /** The parent has every component of the path but the last; only a path
      whose components are none or the root alone has no parent. */
  lemma ParentComponents(p: Path)
    ensures Parent(p).Some? ==> |Components(p)| >= 1
                                && Components(Parent(p).value) == Components(p)[..|Components(p)| - 1]
    ensures Parent(p).None? <==> Components(p) == [] || Components(p) == [RootDir]
  {
    if |TrimBack(p, BodyStart(p))| > BodyStart(p) {
      ParentDropsLastComponent(p);
    } else {
      ParentAtHead(p);
    }
  }

  /** When a name is left past the head, the parent drops it. */
  lemma ParentDropsLastComponent(p: Path)
    requires |TrimBack(p, BodyStart(p))| > BodyStart(p)
    ensures Parent(p).Some?
    ensures var cs := Components(p);
            |cs| >= 1 && cs[|cs| - 1] != RootDir && Components(Parent(p).value) == cs[..|cs| - 1]
  {
    assert Parent(p) == Some(ParentPast(TrimBack(p, BodyStart(p)), BodyStart(p)));
    var front, last := LastComponentSplit(p);
    DropLast(Components(p), front, last);
  }

  lemma DropLast(cs: seq<Component>, front: seq<Component>, last: Component)
    requires cs == front + [last] && last != RootDir
    ensures |cs| >= 1 && cs[|cs| - 1] != RootDir && front == cs[..|cs| - 1]
  {
  }

  /** The piece after the last separator of a path whose body still holds a
      name, once the trimming on the right has dropped empty and `.` pieces. */
  function LastPiece(p: Path): string
    requires |TrimBack(p, BodyStart(p))| > BodyStart(p)
  {
    SplitLast(TrimBack(p, BodyStart(p)), BodyStart(p)).1
  }

  /** The components before that piece. */
  function Front(p: Path): seq<Component>
    requires |TrimBack(p, BodyStart(p))| > BodyStart(p)
  {
    Head(p) + Body(SplitLast(TrimBack(p, BodyStart(p)), BodyStart(p)).0[BodyStart(p)..])
  }

  /** The components of a path whose body still holds a name are those of
      the text before its last piece, then that piece, which is a name. */
  lemma LastComponentSplit(p: Path) returns (front: seq<Component>, last: Component)
    requires |TrimBack(p, BodyStart(p))| > BodyStart(p)
    ensures Components(p) == front + [last] && last != RootDir
    ensures Components(ParentPast(TrimBack(p, BodyStart(p)), BodyStart(p))) == front
  {
    front, last := ComponentsEndInName(p);
    ParentPastComponents(p);
  }

  lemma ComponentsEndInName(p: Path) returns (front: seq<Component>, last: Component)
    requires |TrimBack(p, BodyStart(p))| > BodyStart(p)
    ensures Components(p) == front + [last] && last != RootDir && front == Front(p)
  {
    LastPieceComponents(p);
    PieceComponentsOfName(LastPiece(p));
    front := Front(p);
    last := if LastPiece(p) == ".." then ParentDir else Normal(LastPiece(p));
  }

  /** The components of a path whose body still holds a name: those before
      its last piece, then those of that piece. */
  lemma LastPieceComponents(p: Path)
    requires |TrimBack(p, BodyStart(p))| > BodyStart(p)
    ensures '/' !in LastPiece(p) && LastPiece(p) != "" && LastPiece(p) != "."
    ensures Components(p) == Front(p) + PieceComponents(LastPiece(p))
  {
    var b := BodyStart(p);
    var q := TrimBack(p, b);
    ComponentsSplit(p);
    TrimBackBody(p, b);
    SplitLastBody(q, b);
  }

  /** The components of what is left once the last piece is split off and
      the remainder trimmed: those before that piece. */
  lemma ParentPastComponents(p: Path)
    requires |TrimBack(p, BodyStart(p))| > BodyStart(p)
    ensures Components(ParentPast(TrimBack(p, BodyStart(p)), BodyStart(p))) == Front(p)
  {
    var b := BodyStart(p);
    var split := SplitLast(TrimBack(p, b), b);
    var r := TrimBack(split.0, b);
    TrimmedPrefixHead(p, split.0);
    TrimBackBody(split.0, b);
    ComponentsSplit(r);
  }

  /** When nothing is left past the head, the components are the head: the
      root has no parent, a leading `.` has the empty path as parent, and
      the empty path has none. */
  lemma ParentAtHead(p: Path)
    requires |TrimBack(p, BodyStart(p))| == BodyStart(p)
    ensures Components(p) == Head(p)
    ensures StartsWithCurDir(p) ==> Parent(p) == Some([]) && Components([]) == []
    ensures !StartsWithCurDir(p) ==> Parent(p).None?
  {
    var b := BodyStart(p);
    var q := TrimBack(p, b);
    ComponentsSplit(p);
    TrimBackBody(p, b);
    assert q[b..] == "";
    assert Pieces("") == [""];
    assert BodyComponents([""], false) == [];
    if StartsWithCurDir(p) {
      ComponentsSplit([]);
    }
  }

  /** The components of a body text: those of its first piece, then those
      of the rest. */
  lemma SplitFirstBody(t: Path)
    requires t != []
    ensures Body(t) == PieceComponents(SplitFirst(t).0) + Body(SplitFirst(t).1)
  {
    assert Pieces([]) == [""];
    assert BodyComponents([""], false) == [] by { assert [""][1..] == []; }
    match FindChar(t, '/')
    case None =>
    case Some(i) =>
      BodyComponentsCons(t[..i], Pieces(t[i + 1..]));
  }

  /** Taking `j` components from a body text leaves the text whose
      components are the rest. */
  lemma {:induction false} DropBody(t: Path, j: nat)
    requires j <= |Body(t)|
    ensures Body(DropComponents(t, j)) == Body(t)[j..]
    decreases |t|
  {
    if j > 0 && t != [] {
      DropStep(t, j);
      var split := SplitFirst(t);
      DropBody(split.1, if split.0 == "" || split.0 == "." then j else j - 1);
    } else if t == [] {
      assert Pieces([]) == [""];
      assert BodyComponents([""], false) == [] by { assert [""][1..] == []; }
    }
  }

  /** One step of `DropComponents`: the first piece is skipped, and counted
      when it is a component. */
  lemma DropStep(t: Path, j: nat)
    requires j > 0 && t != [] && j <= |Body(t)|
    ensures var split := SplitFirst(t);
            var left := if split.0 == "" || split.0 == "." then j else j - 1;
            DropComponents(t, j) == DropComponents(split.1, left)
            && left <= |Body(split.1)| && Body(t)[j..] == Body(split.1)[left..]
  {
    var split := SplitFirst(t);
    SplitFirstBody(t);
    if split.0 == "" || split.0 == "." {
      PieceComponentsOfNothing(split.0);
    } else {
      PieceComponentsOfName(split.0);
    }
  }

  /** The trimming on the left keeps the components of a body text. */
  lemma {:induction false} TrimFrontBody(x: Path)
    ensures Body(TrimFront(x)) == Body(x)
    decreases |x|
  {
    if x != [] {
      var split := SplitFirst(x);
      if split.0 == "" || split.0 == "." {
        SplitFirstBody(x);
        PieceComponentsOfNothing(split.0);
        assert TrimFront(x) == TrimFront(split.1);
        TrimFrontBody(split.1);
      }
    }
  }

  /** What the trimming on the left leaves neither starts at the root nor
      with `.`. */
  lemma FrontTrimmedIsPlain(x: Path)
    ensures !IsAbsolute(TrimFront(x)) && !StartsWithCurDir(TrimFront(x))
  {
  }

  /** The text `Components::as_path` leaves of a body text, trimmed at both
      ends, has the components of that body text. */
  lemma TrimmedBothComponents(x: Path)
    ensures Components(TrimBack(TrimFront(x), 0)) == Body(x)
  {
    var f := TrimFront(x);
    var r := TrimBack(f, 0);
    FrontTrimmedIsPlain(x);
    TrimmedPrefixHead(f, f);
    assert f[..|f|] == f;
    ComponentsSplit(r);
    assert r[0..] == r && f[0..] == f;
    TrimBackBody(f, 0);
    TrimFrontBody(x);
  }

  /** Once `k` components are taken from the front of `p`, the rest has the
      components of `p` past the first `k`. */
  lemma RestAfterComponents(p: Path, k: nat)
    requires k <= |Components(p)|
    ensures Components(RestAfter(p, k)) == Components(p)[k..]
  {
    if k == 0 {
      RestAfterNothing(p);
    } else {
      RestAfterSome(p, k);
    }
  }

  /** With nothing taken, the rest is the path trimmed on the right, which
      keeps every component. */
  lemma RestAfterNothing(p: Path)
    ensures Components(RestAfter(p, 0)) == Components(p)
  {
    var b := BodyStart(p);
    var r := TrimBack(p, b);
    assert RestAfter(p, 0) == r;
    assert p[..|p|] == p;
    TrimmedPrefixHead(p, p);
    ComponentsSplit(p);
    ComponentsSplit(r);
    TrimBackBody(p, b);
  }

  /** With some components taken (the head among them), the rest is the body
      text past the others, trimmed at both ends. */
  lemma RestAfterSome(p: Path, k: nat)
    requires 1 <= k <= |Components(p)|
    ensures Components(RestAfter(p, k)) == Components(p)[k..]
  {
    if BodyStart(p) == 0 {
      RestAfterSomePlain(p, k);
    } else {
      RestAfterSomeHead(p, k);
    }
  }

  lemma RestAfterSomePlain(p: Path, k: nat)
    requires 1 <= k <= |Components(p)| && BodyStart(p) == 0
    ensures Components(RestAfter(p, k)) == Components(p)[k..]
  {
    RestAfterPlain(p, k);
    ComponentsSplitPlain(p);
    DroppedRestComponents(p, k);
  }

  lemma RestAfterSomeHead(p: Path, k: nat)
    requires 1 <= k <= |Components(p)| && BodyStart(p) == 1
    ensures Components(RestAfter(p, k)) == Components(p)[k..]
  {
    assert k - 1 <= |Body(p[1..])| && Components(p)[k..] == Body(p[1..])[k - 1..] by {
      ComponentsSplit(p);
      SkipHead(Head(p), Body(p[1..]), k);
    }
    DroppedRestComponents(p[1..], k - 1);
    RestAfterHeadComponents(p, k, Body(p[1..])[k - 1..]);
  }

  lemma RestAfterHeadComponents(p: Path, k: nat, rest: seq<Component>)
    requires k >= 1 && BodyStart(p) == 1
    requires Components(TrimBack(TrimFront(DropComponents(p[1..], k - 1)), 0)) == rest
    ensures Components(RestAfter(p, k)) == rest
  {
    RestAfterHead(p, k);
  }

  lemma SkipHead(h: seq<Component>, body: seq<Component>, k: nat)
    requires |h| == 1 && 1 <= k <= |h + body|
    ensures k - 1 <= |body| && (h + body)[k..] == body[k - 1..]
  {
  }

  lemma RestAfterPlain(p: Path, k: nat)
    requires k >= 1 && BodyStart(p) == 0
    ensures RestAfter(p, k) == TrimBack(TrimFront(DropComponents(p, k)), 0)
  {
  }

  lemma RestAfterHead(p: Path, k: nat)
    requires k >= 1 && BodyStart(p) == 1
    ensures RestAfter(p, k) == TrimBack(TrimFront(DropComponents(p[1..], k - 1)), 0)
  {
  }

  /** The body text past `j` components, trimmed at both ends, has the
      components of the body past the first `j`. */
  lemma DroppedRestComponents(t: Path, j: nat)
    requires j <= |Body(t)|
    ensures Components(TrimBack(TrimFront(DropComponents(t, j)), 0)) == Body(t)[j..]
  {
    DropBody(t, j);
    TrimmedBothComponents(DropComponents(t, j));
  }

  /** The components of the prefix followed by those of what
      `strip_prefix` leaves are the components of the path. */
  lemma StripPathPrefixComponents(path: Path, prefix: Path)
    ensures StripPathPrefix(path, prefix).Some? ==>
              Components(prefix) + Components(StripPathPrefix(path, prefix).value) == Components(path)
  {
    var k := |Components(prefix)|;
    if StripPathPrefix(path, prefix).Some? {
      assert StripPathPrefix(path, prefix).value == RestAfter(path, k);
      RestAfterComponents(path, k);
      PrefixThenRest(Components(prefix), Components(path));
    }
  }

  lemma PrefixThenRest(a: seq<Component>, c: seq<Component>)
    requires a <= c
    ensures a + c[|a|..] == c
  {
    assert a == c[..|a|];
  }
}
