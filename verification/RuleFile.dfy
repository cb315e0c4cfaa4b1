/** What a rule file means (src/dns/rules.cpp:125-226): what a token covers, and that the first line that
    covers a name decides its answer. */
module RuleFile {
  import opened Bytes
  import opened Rules
  import LocalAnswer

  // ---- Tokens ---------------------------------------------------------------------------------

  /** A domain in lower case without dots at its ends is stored as it is written. */
  lemma BareIsNormal(d: seq<byte>)
    requires IsBare(d) && Lower(d) == d
    ensures Normalized(d) == d
  {
  }

  /** Behind a dot a token covers its domain and everything below it; without one, its domain alone. */
  lemma TokenCovers(d: seq<byte>, name: seq<byte>)
    requires IsBare(d) && Lower(d) == d
    ensures var below := TokenDomain([46] + d);
            below.domain == d &&
            (DomainCovers(below.kind, below.domain, name) <==>
               name == d || exists host :: host != [] && name == host + [46] + d)
    ensures var alone := TokenDomain(d);
            alone.domain == d && (DomainCovers(alone.kind, alone.domain, name) <==> name == d)
  {
    BareIsNormal(d);
    assert ([46] + d)[1..] == d && ([46] + d)[0] == 46;
    SuffixCoversSubtree(name, d);
  }

  /** The root is covered by nothing, and an empty domain covers nothing. */
  lemma EmptyIsNotCovered(kind: MatchKind, domain: seq<byte>, name: seq<byte>)
    ensures domain == [] || name == [] ==> !DomainCovers(kind, domain, name)
  {
  }

  lemma {:induction false} KeptAre(parsed: seq<ParsedDomain>, from: nat, d: ParsedDomain)
    requires from <= |parsed|
    ensures d in KeptFrom(parsed, from) <==> d.domain != [] && exists i :: from <= i < |parsed| && parsed[i] == d
    decreases |parsed| - from
  {
    if from < |parsed| {
      var first := if |parsed[from].domain| == 0 then [] else [parsed[from]];
      KeptAre(parsed, from + 1, d);
      InConcat(first, KeptFrom(parsed, from + 1), d);
    }
  }

  lemma InConcat<T>(a: seq<T>, b: seq<T>, x: T)
    ensures x in a + b <==> x in a || x in b
  {
  }

  lemma Regroup<T>(a: seq<T>, b: seq<T>, c: seq<T>)
    ensures a + (b + c) == (a + b) + c
  {
  }

  /** A line names what its tokens do, but for those that name nothing. */
  lemma DomainsAre(tokens: seq<seq<byte>>, d: ParsedDomain)
    ensures d in Domains(tokens) <==> d.domain != [] && exists i :: 0 <= i < |tokens| && TokenDomain(tokens[i]) == d
  {
    KeptAre(Parsed(tokens), 0, d);
    forall i | 0 <= i < |tokens| ensures Parsed(tokens)[i] == TokenDomain(tokens[i]) {}
  }

  // ---- Lines ----------------------------------------------------------------------------------

  predicate TokenCoversName(token: seq<byte>, name: seq<byte>) {
    TokenDomain(token).domain != [] && DomainCovers(TokenDomain(token).kind, TokenDomain(token).domain, name)
  }

  /** No token is an exclusion, and one covers the name. */
  predicate LineCovers(line: Line, name: seq<byte>) {
    (forall i :: 0 <= i < |line.tokens| && |line.tokens[i]| > 0 ==> line.tokens[i][0] != 33) &&
    exists i :: 0 <= i < |line.tokens| && TokenCoversName(line.tokens[i], name)
  }

  predicate Covers(rule: Rule, name: seq<byte>) {
    DomainCovers(rule.kind, rule.domain, name)
  }

  lemma LineCoversIff(line: Line, ttl: nat, name: seq<byte>)
    ensures LineCovers(line, name) <==> exists k :: 0 <= k < |RulesOf(line, ttl)| && Covers(RulesOf(line, ttl)[k], name)
  {
    var rules, domains := RulesOf(line, ttl), Domains(line.tokens);
    assert HasExclusion(line.tokens) <==>
      exists i :: 0 <= i < |line.tokens| && |line.tokens[i]| > 0 && line.tokens[i][0] == 33 by {
      if i :| 0 <= i < |line.tokens| && |line.tokens[i]| > 0 && line.tokens[i][0] == 33 {
        assert IsExclusion(line.tokens[i]);
      }
    }
    if !HasExclusion(line.tokens) {
      if i :| 0 <= i < |line.tokens| && TokenCoversName(line.tokens[i], name) {
        DomainsAre(line.tokens, TokenDomain(line.tokens[i]));
        var k :| 0 <= k < |domains| && domains[k] == TokenDomain(line.tokens[i]);
        assert Covers(rules[k], name);
      }
      if k :| 0 <= k < |rules| && Covers(rules[k], name) {
        assert domains[k] in domains;
        DomainsAre(line.tokens, domains[k]);
      }
    }
  }

  // ---- The file -------------------------------------------------------------------------------

  lemma {:induction false} AllRulesConcat(a: seq<Line>, b: seq<Line>, ttl: nat)
    ensures AllRules(a + b, ttl) == AllRules(a, ttl) + AllRules(b, ttl)
    decreases |b|
  {
    if |b| == 0 {
      assert a + b == a;
    } else {
      var n := |b| - 1;
      AllRulesConcat(a, b[..n], ttl);
      assert (a + b)[..|a + b| - 1] == a + b[..n] && (a + b)[|a + b| - 1] == b[n];
      Regroup(AllRules(a, ttl), AllRules(b[..n], ttl), RulesOf(b[n], ttl));
    }
  }

  lemma {:induction false} NoneCovers(lines: seq<Line>, ttl: nat, name: seq<byte>)
    requires forall i :: 0 <= i < |lines| ==> !LineCovers(lines[i], name)
    ensures forall k :: 0 <= k < |AllRules(lines, ttl)| ==> !Covers(AllRules(lines, ttl)[k], name)
    decreases |lines|
  {
    if |lines| > 0 {
      NoneCovers(lines[..|lines| - 1], ttl, name);
      LineCoversIff(lines[|lines| - 1], ttl, name);
    }
  }

  lemma {:induction false} FirstOf(rules: seq<Rule>, name: seq<byte>, k: nat) returns (first: nat)
    requires k < |rules| && Covers(rules[k], name)
    ensures first <= k && Covers(rules[first], name) && forall j :: 0 <= j < first ==> !Covers(rules[j], name)
    decreases k
  {
    if j :| 0 <= j < k && Covers(rules[j], name) { first := FirstOf(rules, name, j); } else { first := k; }
  }

  /** A rule that answers as the line says. */
  predicate Carries(rule: Rule, line: Line, ttl: nat) {
    && rule.action == line.action && rule.v4 == line.v4 && rule.v6 == line.v6
    && rule.hasV4 == line.hasV4 && rule.hasV6 == line.hasV6 && rule.ttl == ttl
  }

  lemma RulesCarry(line: Line, ttl: nat)
    ensures forall k :: 0 <= k < |RulesOf(line, ttl)| ==> Carries(RulesOf(line, ttl)[k], line, ttl)
  {
  }

  /** The first line that covers a name decides: the first rule that covers it carries that line's
      action and addresses, whatever later lines say. */
  lemma FirstLineWins(before: seq<Line>, line: Line, after: seq<Line>, ttl: nat, name: seq<byte>)
    requires LineCovers(line, name) && forall i :: 0 <= i < |before| ==> !LineCovers(before[i], name)
    ensures var rules := AllRules(before + ([line] + after), ttl);
            exists i: nat :: LocalAnswer.FirstCovers(rules, i, name) && Carries(rules[i], line, ttl)
  {
    var rules, own := AllRules(before + ([line] + after), ttl), RulesOf(line, ttl);
    AllRulesConcat(before, [line] + after, ttl);
    AllRulesConcat([line], after, ttl);
    assert AllRules([line], ttl) == own by {
      assert [line][..0] == [];
      assert AllRules([], ttl) + own == own;
    }
    NoneCovers(before, ttl, name);
    LineCoversIff(line, ttl, name);
    RulesCarry(line, ttl);
    var k :| 0 <= k < |own| && Covers(own[k], name);
    var first := FirstOf(own, name, k);
    PlacedBehind(AllRules(before, ttl), own, AllRules(after, ttl), rules, name, first);
    assert rules[|AllRules(before, ttl)| + first] == own[first];
  }

  lemma PlacedBehind(a: seq<Rule>, own: seq<Rule>, b: seq<Rule>, rules: seq<Rule>, name: seq<byte>, first: nat)
    requires rules == a + (own + b) && first < |own| && Covers(own[first], name)
    requires forall k :: 0 <= k < |a| ==> !Covers(a[k], name)
    requires forall k :: 0 <= k < first ==> !Covers(own[k], name)
    ensures LocalAnswer.FirstCovers(rules, |a| + first, name) && rules[|a| + first] == own[first]
  {
    forall j | 0 <= j < |a| + first ensures !DomainCovers(rules[j].kind, rules[j].domain, name) {
      if j < |a| { assert rules[j] == a[j] && !Covers(a[j], name); }
      else { assert rules[j] == own[j - |a|] && !Covers(own[j - |a|], name); }
    }
    assert Covers(own[first], name);
  }
}
