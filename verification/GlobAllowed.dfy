/** Which path patterns are accepted (src/app/filesystem.cpp:118-150), said of their segments. */
module GlobAllowed {
  import opened GlobPath

  /** At least one segment; none with a colon or two dots in a row, and none a lone dot; and neither `**`
      nor `**` and a lone `*` at the end. */
  predicate AllowedSegments(texts: seq<string>) {
    var n := |texts|;
    && n > 0 && (forall i :: 0 <= i < n ==> ':' !in texts[i] && !HasDots(texts[i]) && texts[i] != ".")
    && texts[n - 1] != "**" && !(n >= 2 && texts[n - 2] == "**" && texts[n - 1] == "*")
  }

  lemma {:induction false} CharInSegments(p: string, c: char)
    requires c != '/' && c != '\\'
    ensures c in p <==> exists i :: 0 <= i < |Split(p)| && c in Split(p)[i]
    decreases |p|
  {
    if p != [] {
      if IsSeparator(p[0]) {
        CharInSegments(p[1..], c);
        assert c in p <==> c in p[1..] by { assert p == [p[0]] + p[1..]; }
        assert Split(p) == Split(p[1..]);
      } else {
        var n := RunLength(p);
        CharInSegments(p[n..], c);
        assert p == p[..n] + p[n..];
        assert Split(p) == [p[..n]] + Split(p[n..]);
        FirstOrRest(p[..n], Split(p[n..]), c);
      }
    }
  }

  lemma FirstOrRest(first: string, rest: seq<string>, c: char)
    ensures (exists i :: 0 <= i < |[first] + rest| && c in ([first] + rest)[i]) <==>
            c in first || exists i :: 0 <= i < |rest| && c in rest[i]
  {
    var all := [first] + rest;
    if c in first { assert c in all[0]; }
    if i :| 0 <= i < |rest| && c in rest[i] { assert c in all[i + 1]; }
    if i :| 0 <= i < |all| && c in all[i] { if i > 0 { assert c in rest[i - 1]; } }
  }

  /** Two dots in a row do not straddle a separator. */
  lemma {:induction false} DotsInSegments(p: string)
    requires HasDots(p)
    ensures exists i :: 0 <= i < |Split(p)| && HasDots(Split(p)[i])
    decreases |p|
  {
    var j :| 0 <= j < |p| - 1 && p[j] == '.' && p[j + 1] == '.';
    if IsSeparator(p[0]) {
      assert p[1..][j - 1] == '.' && p[1..][j - 1 + 1] == '.';
      DotsInSegments(p[1..]);
    } else {
      var n := RunLength(p);
      assert Split(p) == [p[..n]] + Split(p[n..]);
      if j + 1 < n {
        assert p[..n][j] == '.' && p[..n][j + 1] == '.';
        assert HasDots(Split(p)[0]);
      } else {
        assert p[n..][j - n] == '.' && p[n..][j - n + 1] == '.';
        DotsInSegments(p[n..]);
        var i :| 0 <= i < |Split(p[n..])| && HasDots(Split(p[n..])[i]);
        assert HasDots(Split(p)[i + 1]);
      }
    }
  }

  /** A `**` needs something other than a lone `*` somewhere behind it. */
  lemma StarsIff(texts: seq<string>)
    requires |texts| > 0
    ensures (forall i :: 0 <= i < |texts| && texts[i] == "**" ==>
               i < |texts| - 1 && !(i == |texts| - 2 && texts[i + 1] == "*")) <==>
            texts[|texts| - 1] != "**" &&
            !(|texts| >= 2 && texts[|texts| - 2] == "**" && texts[|texts| - 1] == "*")
  {
  }

  /** A pattern is accepted if and only if it does not begin with a separator and its segments are allowed. */
  lemma AllowedIff(p: string)
    ensures IsAllowed(p) <==> p != "" && p[0] != '/' && p[0] != '\\' && AllowedSegments(Split(p))
  {
    CharInSegments(p, ':');
    if HasDots(p) { DotsInSegments(p); }
    forall i | 0 <= i < |Split(p)| ensures HasDots(Split(p)[i]) ==> HasDots(p) { SegmentsAreFromThePattern(p, i); }
    if Split(p) != [] { StarsIff(Split(p)); }
    if "." in Split(p) { var i :| 0 <= i < |Split(p)| && Split(p)[i] == "."; }
  }
}
