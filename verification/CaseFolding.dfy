/** Case folding of names (AsciiLower, as src/dns/message.cpp:114 and src/dns/rules.cpp:50 use it), letter
    by letter. */
module CaseFolding {
  import opened Bytes

  predicate IsCapital(c: byte) {
    65 <= c < 65 + 26
  }

  /** Byte by byte: a capital becomes the small letter as far behind "a" as it is behind "A", and everything
      else stays. */
  lemma {:induction false} LowerAt(s: seq<byte>, i: nat)
    requires i < |s|
    ensures if IsCapital(s[i]) then Lower(s)[i] >= 97 && Lower(s)[i] - 97 == s[i] - 65 else Lower(s)[i] == s[i]
  {
    if i > 0 { LowerAt(s[1..], i - 1); }
  }

  /** Folding leaves no capital, and folding again changes nothing. */
  lemma FoldedOnce(s: seq<byte>)
    ensures (forall i :: 0 <= i < |s| ==> !IsCapital(Lower(s)[i])) && Lower(Lower(s)) == Lower(s)
  {
    forall i | 0 <= i < |s| ensures !IsCapital(Lower(s)[i]) && Lower(Lower(s))[i] == Lower(s)[i] {
      LowerAt(s, i);
      LowerAt(Lower(s), i);
    }
  }
}
