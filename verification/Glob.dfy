/** Glob matching (src/app/filesystem.cpp:39-81, 118-218): one segment with `*` and `?`, then whole
    paths with `**`, each loop against what the pattern means. */
module Glob {
  import opened Bytes

  // ---- What a pattern means -------------------------------------------------------------------

  /** `?` stands for one character, `*` for any number, everything else for itself. */
  ghost predicate Matches(seg: string, pattern: string)
    decreases |pattern|
  {
    if pattern == [] then seg == []
    else if pattern[0] == '*' then exists k :: 0 <= k <= |seg| && Matches(seg[k..], pattern[1..])
    else seg != [] && (pattern[0] == '?' || pattern[0] == seg[0]) && Matches(seg[1..], pattern[1..])
  }

  ghost predicate FitsFrom(seg: string, rest: string, k: nat)
    requires k <= |seg|
  {
    Matches(seg[k..], rest)
  }

  /** The pattern `rest` fits the segment from somewhere at or after `m` on. */
  ghost predicate FitsSomewhere(seg: string, rest: string, m: nat) {
    exists k :: m <= k <= |seg| && FitsFrom(seg, rest, k)
  }

  /** The pattern `pattern[pi..]` fits the segment from `si` on. */
  ghost predicate Fits(seg: string, pattern: string, si: nat, pi: nat)
    requires si <= |seg| && pi <= |pattern|
  {
    FitsFrom(seg, pattern[pi..], si)
  }

  /** Some later place than `m` for what follows the star at `star`. */
  ghost predicate FitsLater(seg: string, pattern: string, star: nat, m: nat)
    requires star < |pattern|
  {
    FitsSomewhere(seg, pattern[star + 1..], m + 1)
  }

  lemma FitsAtStar(seg: string, pattern: string, si: nat, pi: nat)
    requires si <= |seg| && pi < |pattern| && pattern[pi] == '*'
    ensures Fits(seg, pattern, si, pi) <==> FitsSomewhere(seg, pattern[pi + 1..], si)
  {
    assert pattern[pi..][1..] == pattern[pi + 1..];
    if Fits(seg, pattern, si, pi) {
      var k :| 0 <= k <= |seg[si..]| && Matches(seg[si..][k..], pattern[pi..][1..]);
      assert seg[si..][k..] == seg[si + k..];
      assert FitsFrom(seg, pattern[pi + 1..], si + k);
    }
    if FitsSomewhere(seg, pattern[pi + 1..], si) {
      var k :| si <= k <= |seg| && FitsFrom(seg, pattern[pi + 1..], k);
      assert seg[si..][k - si..] == seg[k..];
    }
  }

  lemma FitsAtOther(seg: string, pattern: string, si: nat, pi: nat)
    requires si <= |seg| && pi < |pattern| && pattern[pi] != '*'
    ensures Fits(seg, pattern, si, pi) <==>
              si < |seg| && (pattern[pi] == '?' || pattern[pi] == seg[si]) && Fits(seg, pattern, si + 1, pi + 1)
  {
    assert pattern[pi..][1..] == pattern[pi + 1..];
    if si < |seg| { assert seg[si..][1..] == seg[si + 1..]; }
  }

  predicate NoStar(pattern: string, from: nat, to: nat)
    requires from <= to <= |pattern|
  {
    forall j :: from <= j < to ==> pattern[j] != '*'
  }

  /** Between two stars the pattern moves through the segment one for one. */
  lemma {:induction false} FitsThrough(seg: string, pattern: string, k: nat, from: nat, to: nat)
    requires k <= |seg| && from <= to <= |pattern| && NoStar(pattern, from, to) && Fits(seg, pattern, k, from)
    ensures k + (to - from) <= |seg| && Fits(seg, pattern, k + (to - from), to)
    decreases |pattern| - from
  {
    if from < to {
      FitsAtOther(seg, pattern, k, from);
      FitsThrough(seg, pattern, k + 1, from + 1, to);
    }
  }

  /** Reaching a new star, the earlier one need not be tried again: the new star can take up
      whatever a later place for the earlier one would have. */
  lemma NewStarDominates(seg: string, pattern: string, star: nat, m: nat, si: nat, pi: nat)
    requires star < pi < |pattern| && si <= |seg| && pattern[pi] == '*'
    requires si == m + (pi - star - 1) && NoStar(pattern, star + 1, pi)
    ensures FitsLater(seg, pattern, star, m) ==> Fits(seg, pattern, si, pi)
  {
    if FitsLater(seg, pattern, star, m) {
      var k :| m + 1 <= k <= |seg| && FitsFrom(seg, pattern[star + 1..], k);
      FitsThrough(seg, pattern, k, star + 1, pi);
      var at := k + (pi - star - 1);
      FitsAtStar(seg, pattern, at, pi);
      FitsAtStar(seg, pattern, si, pi);
      var l :| at <= l <= |seg| && FitsFrom(seg, pattern[pi + 1..], l);
    }
  }

  /** With the segment used up, no later place is left for the star. */
  lemma NoLaterPlace(seg: string, pattern: string, star: nat, m: nat, pi: nat)
    requires star < pi <= |pattern| && |seg| == m + (pi - star - 1) && NoStar(pattern, star + 1, pi)
    ensures !FitsLater(seg, pattern, star, m)
  {
    if FitsLater(seg, pattern, star, m) {
      var k :| m + 1 <= k <= |seg| && FitsFrom(seg, pattern[star + 1..], k);
      FitsThrough(seg, pattern, k, star + 1, pi);
    }
  }

  // ---- One segment ----------------------------------------------------------------------------

  method MatchSegment(seg: string, pattern: string) returns (matched: bool)
    ensures matched <==> Matches(seg, pattern)
  {
    var si, pi := 0, 0;
    var star: Option<nat>, matchIdx := None, 0;
    assert seg[0..] == seg && pattern[0..] == pattern;
    while si < |seg|
      invariant 0 <= si <= |seg| && 0 <= pi <= |pattern| && 0 <= matchIdx
      invariant star.Some? ==>
                star.value < pi && si == matchIdx + (pi - star.value - 1) && NoStar(pattern, star.value + 1, pi)
      invariant Matches(seg, pattern) <==>
                  Fits(seg, pattern, si, pi) || (star.Some? && FitsLater(seg, pattern, star.value, matchIdx))
      decreases if star.None? then |seg| + 1 else |seg| - matchIdx, |pattern| - pi
    {
      if pi < |pattern| && pattern[pi] == '*' {
        if star.Some? { NewStarDominates(seg, pattern, star.value, matchIdx, si, pi); }
        FitsAtStar(seg, pattern, si, pi);
        star, matchIdx := Some(pi), si;
        pi := pi + 1;
      } else if pi < |pattern| && (pattern[pi] == '?' || pattern[pi] == seg[si]) {
        FitsAtOther(seg, pattern, si, pi);
        si, pi := si + 1, pi + 1;
      } else {
        if pi < |pattern| { FitsAtOther(seg, pattern, si, pi); }
        if star.None? { return false; }
        pi := star.value + 1;
        matchIdx := matchIdx + 1;
        si := matchIdx;
      }
    }
    if star.Some? { NoLaterPlace(seg, pattern, star.value, matchIdx, pi); }
    while pi < |pattern| && pattern[pi] == '*'
      invariant pi <= |pattern| && (Matches(seg, pattern) <==> Fits(seg, pattern, |seg|, pi))
    {
      FitsAtStar(seg, pattern, |seg|, pi);
      pi := pi + 1;
    }
    if pi < |pattern| { FitsAtOther(seg, pattern, |seg|, pi); }
    return pi == |pattern|;
  }
}
