/** The single-wildcard matcher `match_star`, shared by the `tsconfig.json`
    path aliases and the `exports` map of a `package.json`. The source has two
    copies of it, `match_star` in src/node_resolve.rs and in src/lib.rs, whose
    texts are the same statement for statement; both are modelled by
    `MatchStar`. The source's error value is always the empty string, so the
    model returns an Option: `Some(capture)` or `None`. */
module Pattern {
  import opened Wrappers
  import opened Paths

  /** Matches `search` against `pattern`, following the source branch by
      branch: a length guard, the lone `*`, an exact match, then anchoring at
      the text around the first `*`. Lengths are character counts and slicing
      goes through the `substring` crate's clamping `Substring`. */
  function MatchStar(pattern: string, search: string): (r: Option<string>)
  {
    if |search| < |pattern| then None
    else if pattern == "*" then Some(search)
    else if search == pattern then Some("")
    else
      match FindChar(pattern, '*')
      case None => None
      case Some(k) =>
        var part1 := Substring(pattern, 0, k);
        var part2 := Substring(pattern, k + 1, |pattern|);
        if Substring(search, 0, k) != part1 then None
        else if Substring(search, |search| - |part2|, |search|) != part2 then None
        else Some(Substring(search, k, |search| - |part2|))
  }

  /** The text of `pattern` before its first `*`. */
  function StarPrefix(pattern: string): string
    requires '*' in pattern
  {
    pattern[..FindChar(pattern, '*').value]
  }

  /** The text of `pattern` after its first `*`. */
  function StarSuffix(pattern: string): string
    requires '*' in pattern
  {
    pattern[FindChar(pattern, '*').value + 1..]
  }

  /** The cases the source settles before looking for a `*`. */
  lemma MatchStarEdgeCases(pattern: string, search: string)
    ensures |search| < |pattern| ==> MatchStar(pattern, search) == None
    ensures MatchStar("*", search) == if search == [] then None else Some(search)
    ensures pattern != "*" ==> MatchStar(pattern, pattern) == Some([])
    ensures '*' !in pattern && search != pattern ==> MatchStar(pattern, search) == None
  {
  }

  /** The anchored branch of `MatchStar` with the clamped slices written as
      plain slices: the guard has made every index fit. */
  lemma MatchStarAnchoredBranch(pattern: string, search: string)
    requires '*' in pattern && search != pattern && pattern != "*"
    requires |search| >= |pattern|
    ensures var k, e := |StarPrefix(pattern)|, |search| - |StarSuffix(pattern)|;
            k < e
            && MatchStar(pattern, search) ==
                 if search[..k] == StarPrefix(pattern) && search[e..] == StarSuffix(pattern)
                 then Some(search[k..e]) else None
  {
    var k := FindChar(pattern, '*').value;
    assert Substring(pattern, 0, k) == StarPrefix(pattern);
    assert Substring(pattern, k + 1, |pattern|) == StarSuffix(pattern);
  }

  /** A match against a pattern with a `*` (other than the exact match)
      succeeds exactly when `search` is long enough and starts with the text
      before the first `*` and ends with the text after it; the capture is what
      lies between, and the length guard keeps it non-empty. */
  lemma {:induction false} MatchStarAnchors(pattern: string, search: string)
    requires '*' in pattern && search != pattern
    ensures MatchStar(pattern, search).Some? <==>
              |search| >= |pattern|
              && StartsWith(search, StarPrefix(pattern)) && EndsWith(search, StarSuffix(pattern))
    ensures MatchStar(pattern, search).Some? ==>
              var c := MatchStar(pattern, search).value;
              StarPrefix(pattern) + c + StarSuffix(pattern) == search
              && |c| == |search| - |pattern| + 1 && |c| >= 1
  {
    var prefix, suffix := StarPrefix(pattern), StarSuffix(pattern);
    assert |pattern| == |prefix| + 1 + |suffix|;
    if |search| >= |pattern| {
      if pattern == "*" {
        assert prefix == [] && suffix == [];
        assert search[..0] == [] && search[|search|..] == [];
        assert prefix + search + suffix == search;
      } else {
        MatchStarAnchoredBranch(pattern, search);
        var k, e := |prefix|, |search| - |suffix|;
        if StartsWith(search, prefix) && EndsWith(search, suffix) {
          assert search == search[..k] + search[k..e] + search[e..];
        }
      }
    }
  }

  /** Replacing the `*` of a single-`*` pattern puts the capture between the
      text before and the text after it. */
  lemma {:induction false} ReplaceSingleStar(pattern: string, capture: string)
    requires '*' in pattern && '*' !in StarSuffix(pattern)
    ensures ReplaceStar(pattern, capture) == StarPrefix(pattern) + capture + StarSuffix(pattern)
  {
    var prefix, suffix := StarPrefix(pattern), StarSuffix(pattern);
    assert pattern == prefix + ("*" + suffix);
    ReplaceStarConcat(prefix, "*" + suffix, capture);
    ReplaceStarConcat("*", suffix, capture);
    ReplaceStarNoStar(prefix, capture);
    ReplaceStarNoStar(suffix, capture);
    assert ReplaceStar("*", capture) == capture + ReplaceStar([], capture);
  }

  /** Substituting a capture into a single-`*` pattern and matching the result
      gives the capture back, unless the capture is empty (the length guard) or
      is `*` itself (the exact-match branch answers first, with the empty
      capture). */
  lemma {:induction false} MatchStarSubstitution(pattern: string, capture: string)
    requires '*' in pattern && '*' !in StarSuffix(pattern)
    requires capture != [] && capture != "*"
    ensures MatchStar(pattern, ReplaceStar(pattern, capture)) == Some(capture)
  {
    var prefix, suffix := StarPrefix(pattern), StarSuffix(pattern);
    ReplaceSingleStar(pattern, capture);
    var s := prefix + capture + suffix;
    assert |pattern| == |prefix| + 1 + |suffix|;
    assert s[|prefix|] == capture[0] && pattern[|prefix|] == '*';
    assert |capture| != 1 || capture[0] != '*';
    assert s != pattern;
    MatchStarAnchors(pattern, s);
    assert s[..|prefix|] == prefix;
    assert s[|s| - |suffix|..] == suffix;
    var c := MatchStar(pattern, s).value;
    assert |c| == |capture|;
    assert c == (prefix + c + suffix)[|prefix|..|prefix| + |c|];
    assert capture == (prefix + capture + suffix)[|prefix|..|prefix| + |c|];
  }

  /** Conversely, a successful non-exact match rebuilds the search when its
      capture is put back into a single-`*` pattern. */
  lemma {:induction false} MatchStarRebuildsSearch(pattern: string, search: string)
    requires '*' in pattern && '*' !in StarSuffix(pattern) && search != pattern
    requires MatchStar(pattern, search).Some?
    ensures ReplaceStar(pattern, MatchStar(pattern, search).value) == search
  {
    MatchStarAnchors(pattern, search);
    ReplaceSingleStar(pattern, MatchStar(pattern, search).value);
  }
}
