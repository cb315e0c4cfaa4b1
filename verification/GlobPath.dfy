/** Whole-path matching (src/app/filesystem.cpp:39-51, 118-218): splitting, compiling a pattern, and
    `**` over any number of segments. */
module GlobPath {
  import opened Glob

  datatype SegmentKind = Literal | Wildcard | RecursiveWildcard

  datatype Segment = Segment(kind: SegmentKind, text: string)

  datatype GlobPattern = GlobPattern(segments: seq<Segment>, isValid: bool, isRecursive: bool)

  predicate IsSeparator(c: char) {
    c == '\\' || c == '/'
  }

  // ---- Splitting ------------------------------------------------------------------------------

  function RunLength(p: string): (n: nat)
    ensures n <= |p| && (forall i :: 0 <= i < n ==> !IsSeparator(p[i])) && (n < |p| ==> IsSeparator(p[n]))
  {
    if p == [] || IsSeparator(p[0]) then 0 else 1 + RunLength(p[1..])
  }

  /** The non-empty runs of characters between separators, in order. */
  function Split(p: string): seq<string>
    decreases |p|
  {
    if p == [] then []
    else if IsSeparator(p[0]) then Split(p[1..])
    else [p[..RunLength(p)]] + Split(p[RunLength(p)..])
  }

  function Normalized(p: string): (r: string)
    ensures |r| == |p|
  {
    seq(|p|, i requires 0 <= i < |p| => if p[i] == '/' then '\\' else p[i])
  }

  method NormalizePath(p: string) returns (r: string)
    ensures r == Normalized(p)
  {
    r := p;
    var i := 0;
    while i < |r|
      invariant i <= |r| == |p|
      invariant forall j :: 0 <= j < |p| ==> r[j] == if j < i && p[j] == '/' then '\\' else p[j]
    {
      if r[i] == '/' { r := r[i := '\\']; }
      i := i + 1;
    }
  }

  lemma {:induction false} RunIs(p: string, n: nat)
    requires n <= |p| && (forall i :: 0 <= i < n ==> !IsSeparator(p[i])) && (n < |p| ==> IsSeparator(p[n]))
    ensures RunLength(p) == n
  {
    if n > 0 { RunIs(p[1..], n - 1); }
  }

  lemma SplitRun(p: string, start: nat, end: nat)
    requires start < end <= |p| && (forall i :: start <= i < end ==> !IsSeparator(p[i]))
    requires end < |p| ==> IsSeparator(p[end])
    ensures Split(p[start..]) == [p[start..end]] + Split(p[end..])
  {
    RunIs(p[start..], end - start);
    assert p[start..][..end - start] == p[start..end] && p[start..][end - start..] == p[end..];
  }

  lemma SplitSeparator(p: string, at: nat)
    requires at < |p| && IsSeparator(p[at])
    ensures Split(p[at..]) == Split(p[at + 1..])
  {
    assert p[at..][1..] == p[at + 1..];
  }

  /** `segments` are what was split off before `start`, where the current run starts. */
  predicate SplitSoFar(p: string, start: nat, segments: seq<string>)
    requires start <= |p| + 1
  {
    if start <= |p| then Split(p) == segments + Split(p[start..]) else Split(p) == segments
  }

  lemma RunEnds(p: string, start: nat, end: nat, segments: seq<string>)
    requires start <= end <= |p| && SplitSoFar(p, start, segments)
    requires forall j :: start <= j < end ==> !IsSeparator(p[j])
    requires end < |p| ==> IsSeparator(p[end])
    ensures SplitSoFar(p, end + 1, if end > start then segments + [p[start..end]] else segments)
  {
    if end > start {
      SplitRun(p, start, end);
      assert (segments + [p[start..end]]) + Split(p[end..]) == segments + ([p[start..end]] + Split(p[end..]));
    }
    if end < |p| { SplitSeparator(p, end); }
  }

  method SplitPath(p: string) returns (segments: seq<string>)
    ensures segments == Split(p)
  {
    segments := [];
    var start, i := 0, 0;
    assert p[0..] == p;
    while i <= |p|
      invariant 0 <= start <= |p| + 1 && start <= i <= |p| + 1
      invariant (i == |p| + 1) == (start == |p| + 1)
      invariant forall j :: start <= j < i && j < |p| ==> !IsSeparator(p[j])
      invariant SplitSoFar(p, start, segments)
    {
      if i == |p| || p[i] == '\\' || p[i] == '/' {
        RunEnds(p, start, i, segments);
        if i > start { segments := segments + [p[start..i]]; }
        start := i + 1;
      }
      i := i + 1;
    }
  }

  /** Changing `/` to `\` first makes no difference to the split but for the separators it drops. */
  lemma {:induction false} NormalizingKeepsSegments(p: string)
    ensures Split(Normalized(p)) == Split(p)
    decreases |p|
  {
    var q := Normalized(p);
    if p != [] {
      if IsSeparator(p[0]) {
        assert q[1..] == Normalized(p[1..]);
        NormalizingKeepsSegments(p[1..]);
      } else {
        var n := RunLength(p);
        RunIs(q, n);
        assert q[..n] == p[..n] && q[n..] == Normalized(p[n..]);
        NormalizingKeepsSegments(p[n..]);
      }
    }
  }

  predicate CleanSegments(segments: seq<string>) {
    forall i :: 0 <= i < |segments| ==>
      segments[i] != [] && forall j :: 0 <= j < |segments[i]| ==> !IsSeparator(segments[i][j])
  }

  function Join(segments: seq<string>): string {
    if segments == [] then [] else segments[0] + (if |segments| == 1 then [] else "\\" + Join(segments[1..]))
  }

  /** Splitting undoes joining. */
  lemma {:induction false} SplitJoin(segments: seq<string>)
    requires CleanSegments(segments)
    ensures Split(Join(segments)) == segments
  {
    if segments != [] {
      var p, n := Join(segments), |segments[0]|;
      assert p[..n] == segments[0];
      RunIs(p, n);
      SplitJoin(segments[1..]);
      if |segments| > 1 {
        assert p[n..][1..] == Join(segments[1..]);
        assert segments == [segments[0]] + segments[1..];
      } else {
        assert p[n..] == [];
      }
    }
  }

  // ---- What a path pattern means --------------------------------------------------------------

  /** `**` stands for any number of whole segments, every other segment pattern for one segment. */
  ghost predicate MatchesPath(path: seq<string>, patterns: seq<string>)
    decreases |patterns|
  {
    if patterns == [] then path == []
    else if patterns[0] == "**" then exists k :: 0 <= k <= |path| && MatchesPath(path[k..], patterns[1..])
    else path != [] && Matches(path[0], patterns[0]) && MatchesPath(path[1..], patterns[1..])
  }

  ghost predicate PathFits(path: seq<string>, patterns: seq<string>, si: nat, pi: nat)
    requires si <= |path| && pi <= |patterns|
  {
    MatchesPath(path[si..], patterns[pi..])
  }

  lemma PathFitsAtOther(path: seq<string>, patterns: seq<string>, si: nat, pi: nat)
    requires si <= |path| && pi < |patterns| && patterns[pi] != "**"
    ensures PathFits(path, patterns, si, pi) <==>
              si < |path| && Matches(path[si], patterns[pi]) && PathFits(path, patterns, si + 1, pi + 1)
  {
    assert patterns[pi..][1..] == patterns[pi + 1..];
    if si < |path| { assert path[si..][1..] == path[si + 1..]; }
  }

  /** A `**` takes no segment, or one more. */
  lemma PathFitsAtRecursive(path: seq<string>, patterns: seq<string>, si: nat, pi: nat)
    requires si <= |path| && pi < |patterns| && patterns[pi] == "**"
    ensures PathFits(path, patterns, si, pi) <==>
              PathFits(path, patterns, si, pi + 1) || (si < |path| && PathFits(path, patterns, si + 1, pi))
  {
    var rest := patterns[pi + 1..];
    assert patterns[pi..][1..] == rest;
    if PathFits(path, patterns, si, pi) {
      var k :| 0 <= k <= |path[si..]| && MatchesPath(path[si..][k..], rest);
      if k == 0 { assert path[si..][0..] == path[si..]; } else { assert path[si + 1..][k - 1..] == path[si..][k..]; }
    }
    if PathFits(path, patterns, si, pi + 1) { assert path[si..][0..] == path[si..]; }
    if si < |path| && PathFits(path, patterns, si + 1, pi) {
      var k :| 0 <= k <= |path[si + 1..]| && MatchesPath(path[si + 1..][k..], rest);
      assert path[si..][k + 1..] == path[si + 1..][k..];
    }
  }

  predicate IsPlain(text: string) {
    forall i :: 0 <= i < |text| ==> text[i] != '*' && text[i] != '?'
  }

  /** Without wildcards a segment pattern stands for itself. */
  lemma {:induction false} PlainMatchesItself(seg: string, text: string)
    requires IsPlain(text)
    ensures Matches(seg, text) <==> seg == text
  {
    if text != [] && seg != [] {
      PlainMatchesItself(seg[1..], text[1..]);
      assert seg == [seg[0]] + seg[1..] && text == [text[0]] + text[1..];
    }
  }

  // ---- Compiling ------------------------------------------------------------------------------

  predicate HasDots(p: string) {
    exists i :: 0 <= i < |p| - 1 && p[i] == '.' && p[i + 1] == '.'
  }

  /** The patterns the application accepts: relative, without `..`, and with a `**` only where
      something other than a lone `*` follows it. */
  predicate IsAllowed(pattern: string) {
    && pattern != [] && ':' !in pattern && !IsSeparator(pattern[0]) && !HasDots(pattern)
    && var segments := Split(pattern);
       && segments != [] && "." !in segments
       && forall i :: 0 <= i < |segments| && segments[i] == "**" ==>
            i < |segments| - 1 && !(i == |segments| - 2 && segments[i + 1] == "*")
  }

  function KindOf(text: string): SegmentKind {
    if text == "**" then RecursiveWildcard else if IsPlain(text) then Literal else Wildcard
  }

  /** The segments, each with its kind; the text of a `**` is dropped. */
  function Compiled(texts: seq<string>): seq<Segment> {
    seq(|texts|, i requires 0 <= i < |texts| => Segment(KindOf(texts[i]), if texts[i] == "**" then "" else texts[i]))
  }

  method HasWildcard(text: string) returns (wild: bool)
    ensures wild == !IsPlain(text)
  {
    var i := 0;
    while i < |text|
      invariant i <= |text| && IsPlain(text[..i])
    {
      if text[i] == '*' || text[i] == '?' { return true; }
      i := i + 1;
    }
    assert text[..i] == text;
    return false;
  }

  method FindDots(p: string) returns (found: bool)
    ensures found == HasDots(p)
  {
    var i := 0;
    while i + 1 < |p|
      invariant 0 <= i <= |p| && forall j :: 0 <= j < i && j < |p| - 1 ==> !(p[j] == '.' && p[j + 1] == '.')
    {
      if p[i] == '.' && p[i + 1] == '.' { return true; }
      i := i + 1;
    }
    return false;
  }

  /** A segment with two dots has them in the pattern too. */
  lemma {:induction false} SegmentsAreFromThePattern(p: string, i: nat)
    requires i < |Split(p)|
    ensures HasDots(Split(p)[i]) ==> HasDots(p)
    decreases |p|
  {
    if IsSeparator(p[0]) {
      SegmentsAreFromThePattern(p[1..], i);
      if HasDots(p[1..]) {
        var j :| 0 <= j < |p[1..]| - 1 && p[1..][j] == '.' && p[1..][j + 1] == '.';
        assert p[j + 1] == '.' && p[j + 2] == '.';
      }
    } else {
      var n := RunLength(p);
      if i == 0 {
        if j :| 0 <= j < |p[..n]| - 1 && p[..n][j] == '.' && p[..n][j + 1] == '.' {
          assert p[j] == '.' && p[j + 1] == '.';
        }
      } else {
        SegmentsAreFromThePattern(p[n..], i - 1);
        if j :| 0 <= j < |p[n..]| - 1 && p[n..][j] == '.' && p[n..][j + 1] == '.' {
          assert p[n + j] == '.' && p[n + j + 1] == '.';
        }
      }
    }
  }

  lemma NoDotDotSegment(p: string)
    requires !HasDots(p)
    ensures ".." !in Split(p)
  {
    forall i | 0 <= i < |Split(p)| ensures Split(p)[i] != ".." {
      SegmentsAreFromThePattern(p, i);
      assert HasDots("..") by { assert ".."[0] == '.' && ".."[0 + 1] == '.'; }
    }
  }

  method CheckRecursive(segments: seq<string>) returns (ok: bool, hasRecursive: bool)
    ensures ok <==> forall i :: 0 <= i < |segments| && segments[i] == "**" ==>
                      i < |segments| - 1 && !(i == |segments| - 2 && segments[i + 1] == "*")
    ensures ok ==> (hasRecursive <==> "**" in segments)
  {
    hasRecursive := false;
    var i := 0;
    while i < |segments|
      invariant 0 <= i <= |segments| && (hasRecursive <==> "**" in segments[..i])
      invariant forall j :: 0 <= j < i && segments[j] == "**" ==>
                  j < |segments| - 1 && !(j == |segments| - 2 && segments[j + 1] == "*")
    {
      if segments[i] == "**" {
        hasRecursive := true;
        if i == |segments| - 1 { return false, hasRecursive; }
        if i == |segments| - 2 && segments[i + 1] == "*" { return false, hasRecursive; }
      }
      i := i + 1;
    }
    assert segments[..i] == segments;
    ok := true;
  }

  lemma CompiledThen(segments: seq<string>, i: nat, segment: Segment)
    requires i < |segments|
    requires segment == Segment(KindOf(segments[i]), if segments[i] == "**" then "" else segments[i])
    ensures Compiled(segments[..i + 1]) == Compiled(segments[..i]) + [segment]
  {
  }

  method CompilePattern(pattern: string) returns (compiled: GlobPattern)
    ensures compiled.isValid <==> IsAllowed(pattern)
    ensures compiled.isValid ==>
            compiled.segments == Compiled(Split(pattern)) && (compiled.isRecursive <==> "**" in Split(pattern))
  {
    compiled := GlobPattern([], false, false);
    if pattern == [] { return; }
    if ':' in pattern { return; }
    if pattern[0] == '\\' || pattern[0] == '/' { return; }
    var dots := FindDots(pattern);
    if dots { return; }
    var normalized := NormalizePath(pattern);
    var segments := SplitPath(normalized);
    NormalizingKeepsSegments(pattern);
    if segments == [] { return; }
    NoDotDotSegment(pattern);
    var i := 0;
    while i < |segments|
      invariant i <= |segments| && "." !in segments[..i]
    {
      if segments[i] == "." || segments[i] == ".." { return; }
      i := i + 1;
    }
    assert segments[..i] == segments;
    var ok, hasRecursive := CheckRecursive(segments);
    if !ok { return; }
    compiled := compiled.(isRecursive := hasRecursive);
    i := 0;
    while i < |segments|
      invariant i <= |segments| && compiled == GlobPattern(Compiled(segments[..i]), false, hasRecursive)
    {
      var wild := HasWildcard(segments[i]);
      var segment := if segments[i] == "**" then Segment(RecursiveWildcard, "")
                     else if wild then Segment(Wildcard, segments[i]) else Segment(Literal, segments[i]);
      CompiledThen(segments, i, segment);
      compiled := compiled.(segments := compiled.segments + [segment]);
      i := i + 1;
    }
    assert segments[..i] == segments;
    compiled := compiled.(isValid := true);
  }

  // ---- Matching -------------------------------------------------------------------------------

  method MatchOne(seg: string, pattern: Segment, ghost text: string) returns (matched: bool)
    requires text != "**" && pattern == Segment(KindOf(text), text)
    ensures matched <==> Matches(seg, text)
  {
    if pattern.kind == Literal {
      PlainMatchesItself(seg, text);
      return seg == pattern.text;
    }
    matched := MatchSegment(seg, pattern.text);
  }

  /** With the path used up, only `**`s may be left. */
  lemma {:induction false} NothingLeft(path: seq<string>, texts: seq<string>, pi: nat)
    requires pi <= |texts|
    ensures PathFits(path, texts, |path|, pi) <==> forall i :: pi <= i < |texts| ==> texts[i] == "**"
    decreases |texts| - pi
  {
    if pi < |texts| {
      NothingLeft(path, texts, pi + 1);
      if texts[pi] == "**" {
        PathFitsAtRecursive(path, texts, |path|, pi);
      } else {
        PathFitsAtOther(path, texts, |path|, pi);
      }
    }
  }

  /** The general matcher, trying for each `**` to take nothing and then one segment more. */
  method MatchFrom(path: seq<string>, patterns: seq<Segment>, ghost texts: seq<string>, pi: nat, si: nat)
    returns (matched: bool)
    requires pi <= |patterns| && si <= |path| && patterns == Compiled(texts)
    ensures matched <==> PathFits(path, texts, si, pi)
    decreases |patterns| - pi, |path| - si
  {
    if pi == |patterns| && si == |path| { return true; }
    if pi == |patterns| { return false; }
    if si == |path| {
      NothingLeft(path, texts, pi);
      var i := pi;
      while i < |patterns|
        invariant pi <= i <= |patterns| && forall j :: pi <= j < i ==> texts[j] == "**"
      {
        if patterns[i].kind != RecursiveWildcard { return false; }
        i := i + 1;
      }
      return true;
    }
    if patterns[pi].kind == RecursiveWildcard {
      PathFitsAtRecursive(path, texts, si, pi);
      matched := MatchFrom(path, patterns, texts, pi + 1, si);
      if matched { return true; }
      matched := MatchFrom(path, patterns, texts, pi, si + 1);
    } else {
      PathFitsAtOther(path, texts, si, pi);
      matched := MatchOne(path[si], patterns[pi], texts[pi]);
      if !matched { return false; }
      matched := MatchFrom(path, patterns, texts, pi + 1, si + 1);
    }
  }

  /** Without a `**` the path has as many segments as the pattern, each matching its own. */
  lemma {:induction false} PlainPathMatches(path: seq<string>, texts: seq<string>)
    requires "**" !in texts
    ensures MatchesPath(path, texts) <==>
            |path| == |texts| && forall i :: 0 <= i < |path| ==> Matches(path[i], texts[i])
  {
    if path != [] && texts != [] {
      PlainPathMatches(path[1..], texts[1..]);
      assert forall i :: 0 < i < |path| ==> path[i] == path[1..][i - 1];
      assert forall i :: 0 < i < |texts| ==> texts[i] == texts[1..][i - 1];
      assert |path| == |texts| ==>
        forall i :: 0 <= i < |path[1..]| ==> path[1..][i] == path[i + 1] && texts[1..][i] == texts[i + 1];
    }
  }

  method MatchSegments(path: seq<string>, patterns: seq<Segment>, ghost texts: seq<string>) returns (matched: bool)
    requires patterns == Compiled(texts) && "**" !in texts
    ensures matched <==> MatchesPath(path, texts)
  {
    PlainPathMatches(path, texts);
    if |path| != |patterns| { return false; }
    var i := 0;
    while i < |path|
      invariant 0 <= i <= |path| && forall j :: 0 <= j < i ==> Matches(path[j], texts[j])
    {
      var one := MatchOne(path[i], patterns[i], texts[i]);
      if !one { return false; }
      i := i + 1;
    }
    return true;
  }

  /** Match `rel` against a pattern compiled from `source`. */
  method MatchesPattern(rel: string, pattern: GlobPattern, ghost source: string) returns (matched: bool)
    requires pattern.isValid ==>
             pattern.segments == Compiled(Split(source)) && (pattern.isRecursive <==> "**" in Split(source))
    ensures matched <==> pattern.isValid && MatchesPath(Split(rel), Split(source))
  {
    if !pattern.isValid { return false; }
    var normalized := NormalizePath(rel);
    var path := SplitPath(normalized);
    NormalizingKeepsSegments(rel);
    if !pattern.isRecursive {
      matched := MatchSegments(path, pattern.segments, Split(source));
      return;
    }
    matched := MatchFrom(path, pattern.segments, Split(source), 0, 0);
    assert path[0..] == path && Split(source)[0..] == Split(source);
  }

  /** Compiling and then matching decides what the pattern means, for every pattern and path. */
  method CompileAndMatch(source: string, rel: string) returns (matched: bool)
    ensures matched <==> IsAllowed(source) && MatchesPath(Split(rel), Split(source))
  {
    var pattern := CompilePattern(source);
    matched := MatchesPattern(rel, pattern, source);
  }
}
