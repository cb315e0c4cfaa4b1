/** What the wildcards mean (src/app/filesystem.cpp:53-81, 188-215), by laws that leave no other meaning: what
    the empty pattern, one character, `?`, `*` and `**` match, and that patterns in a row match pieces in a
    row. */
module GlobMeaning {
  import opened Glob
  import opened GlobPath

  // ---- One segment ----------------------------------------------------------------------------

  /** One character of a pattern that is not a star stands for one character. */
  lemma OneMatches(seg: string, c: char)
    requires c != '*'
    ensures Matches(seg, [c]) <==> |seg| == 1 && (c == '?' || seg[0] == c)
  {
    assert [c][1..] == [];
    if seg != [] { assert Matches(seg[1..], []) <==> seg[1..] == []; }
  }

  lemma StarMatches(seg: string)
    ensures Matches(seg, "*")
  {
    var star := "*";
    assert star[1..] == [] && seg[|seg|..] == [];
    assert Matches(seg[|seg|..], star[1..]);
  }

  /** Nothing matches nothing, `?` any one character, another character itself, and `*` everything. */
  lemma SinglesMatch(seg: string, c: char)
    ensures Matches(seg, []) <==> seg == []
    ensures Matches(seg, ['?']) <==> |seg| == 1
    ensures Matches(seg, ['*'])
    ensures c != '?' && c != '*' ==> (Matches(seg, [c]) <==> seg == [c])
  {
    StarMatches(seg);
    OneMatches(seg, '?');
    if c != '*' { OneMatches(seg, c); }
  }

  ghost predicate Cuts(seg: string, k: nat, p: string, q: string) {
    k <= |seg| && Matches(seg[..k], p) && Matches(seg[k..], q)
  }

  lemma {:induction false} InARow(seg: string, p: string, q: string, k: nat)
    requires Cuts(seg, k, p, q)
    ensures Matches(seg, p + q)
    decreases |p|
  {
    if p == [] {
      assert p + q == q && seg[k..] == seg;
    } else {
      assert (p + q)[0] == p[0] && (p + q)[1..] == p[1..] + q;
      if p[0] == '*' {
        var j :| 0 <= j <= |seg[..k]| && Matches(seg[..k][j..], p[1..]);
        assert seg[..k][j..] == seg[j..][..k - j] && seg[j..][k - j..] == seg[k..];
        InARow(seg[j..], p[1..], q, k - j);
      } else {
        assert seg[..k][1..] == seg[1..][..k - 1] && seg[1..][k - 1..] == seg[k..];
        InARow(seg[1..], p[1..], q, k - 1);
      }
    }
  }

  lemma {:induction false} CutInARow(seg: string, p: string, q: string) returns (k: nat)
    requires Matches(seg, p + q)
    ensures Cuts(seg, k, p, q)
    decreases |p|
  {
    if p == [] {
      assert p + q == q && seg[0..] == seg && seg[..0] == [];
      return 0;
    }
    assert (p + q)[0] == p[0] && (p + q)[1..] == p[1..] + q;
    if p[0] == '*' {
      var j :| 0 <= j <= |seg| && Matches(seg[j..], p[1..] + q);
      var n := CutInARow(seg[j..], p[1..], q);
      k := j + n;
      assert seg[..k][j..] == seg[j..][..n] && seg[j..][n..] == seg[k..];
    } else {
      var n := CutInARow(seg[1..], p[1..], q);
      k := n + 1;
      assert seg[..k][1..] == seg[1..][..n] && seg[1..][n..] == seg[k..];
    }
  }

  /** A text matches two patterns in a row exactly if it can be cut into two that match one each. */
  lemma MatchesInARow(seg: string, p: string, q: string)
    ensures Matches(seg, p + q) <==> exists k: nat :: Cuts(seg, k, p, q)
  {
    if Matches(seg, p + q) { var k := CutInARow(seg, p, q); }
    if k: nat :| Cuts(seg, k, p, q) { InARow(seg, p, q, k); }
  }

  // ---- Whole paths ----------------------------------------------------------------------------

  /** No pattern matches the empty path alone, `**` any path, and another one segment. */
  lemma SinglePatternsMatch(path: seq<string>, text: string)
    ensures MatchesPath(path, []) <==> path == []
    ensures MatchesPath(path, ["**"])
    ensures text != "**" ==> (MatchesPath(path, [text]) <==> |path| == 1 && Matches(path[0], text))
  {
    assert ["**"][1..] == [] && [text][1..] == [] && path[|path|..] == [];
    assert MatchesPath(path[|path|..], ["**"][1..]);
    if |path| == 1 { assert path[1..] == []; }
  }

  ghost predicate PathCuts(path: seq<string>, k: nat, p: seq<string>, q: seq<string>) {
    k <= |path| && MatchesPath(path[..k], p) && MatchesPath(path[k..], q)
  }

  lemma {:induction false} PathInARow(path: seq<string>, p: seq<string>, q: seq<string>, k: nat)
    requires PathCuts(path, k, p, q)
    ensures MatchesPath(path, p + q)
    decreases |p|
  {
    if p == [] {
      assert p + q == q && path[k..] == path;
    } else {
      assert (p + q)[0] == p[0] && (p + q)[1..] == p[1..] + q;
      if p[0] == "**" {
        var j :| 0 <= j <= |path[..k]| && MatchesPath(path[..k][j..], p[1..]);
        assert path[..k][j..] == path[j..][..k - j] && path[j..][k - j..] == path[k..];
        PathInARow(path[j..], p[1..], q, k - j);
      } else {
        assert path[..k][1..] == path[1..][..k - 1] && path[1..][k - 1..] == path[k..];
        PathInARow(path[1..], p[1..], q, k - 1);
      }
    }
  }

  lemma {:induction false} CutPathInARow(path: seq<string>, p: seq<string>, q: seq<string>) returns (k: nat)
    requires MatchesPath(path, p + q)
    ensures PathCuts(path, k, p, q)
    decreases |p|
  {
    if p == [] {
      assert p + q == q && path[0..] == path && path[..0] == [];
      return 0;
    }
    assert (p + q)[0] == p[0] && (p + q)[1..] == p[1..] + q;
    if p[0] == "**" {
      var j :| 0 <= j <= |path| && MatchesPath(path[j..], p[1..] + q);
      var n := CutPathInARow(path[j..], p[1..], q);
      k := j + n;
      assert path[..k][j..] == path[j..][..n] && path[j..][n..] == path[k..];
    } else {
      var n := CutPathInARow(path[1..], p[1..], q);
      k := n + 1;
      assert path[..k][1..] == path[1..][..n] && path[1..][n..] == path[k..];
    }
  }

  /** The same law for lists of segment patterns. */
  lemma PathMatchesInARow(path: seq<string>, p: seq<string>, q: seq<string>)
    ensures MatchesPath(path, p + q) <==> exists k: nat :: PathCuts(path, k, p, q)
  {
    if MatchesPath(path, p + q) { var k := CutPathInARow(path, p, q); }
    if k: nat :| PathCuts(path, k, p, q) { PathInARow(path, p, q, k); }
  }
}
