/** Redirect rules (src/dns/rules.cpp): which names they cover, and the list of namespaces the
    policy table is given for them. */
module Rules {
  import opened Bytes

  datatype MatchKind = Exact | Suffix

  datatype RuleAction = Redirect | Block

  /** `hasV4` and `hasV6` say which of the two addresses the rule can answer with. */
  datatype Rule = Rule(action: RuleAction, kind: MatchKind, domain: seq<byte>,
                       v4: seq<byte>, v6: seq<byte>, hasV4: bool, hasV6: bool, ttl: nat)

  // ---- Domains --------------------------------------------------------------------------------

  predicate AllDots(s: seq<byte>) {
    forall i :: 0 <= i < |s| ==> s[i] == DOT
  }

  /** Non-empty, with no dot at either end: what a parsed rule holds. */
  predicate IsBare(domain: seq<byte>) {
    domain != [] && domain[0] != DOT && domain[|domain| - 1] != DOT
  }

  function StripFront(s: seq<byte>): (r: seq<byte>)
    ensures r != [] ==> r[0] != DOT
  {
    if s != [] && s[0] == DOT then StripFront(s[1..]) else s
  }

  function StripBack(s: seq<byte>): (r: seq<byte>)
    ensures |r| <= |s| && r == s[..|r|] && (r != [] ==> r[|r| - 1] != DOT)
  {
    if s != [] && s[|s| - 1] == DOT then StripBack(s[..|s| - 1]) else s
  }

  /** Lowercased, with the dots at both ends gone. */
  function Normalized(d: seq<byte>): (r: seq<byte>)
    ensures r == [] || IsBare(r)
  {
    StripBack(StripFront(Lower(d)))
  }

  lemma {:induction false} FrontIsDots(s: seq<byte>)
    ensures exists front :: AllDots(front) && s == front + StripFront(s)
  {
    if s != [] && s[0] == DOT {
      FrontIsDots(s[1..]);
      var front :| AllDots(front) && s[1..] == front + StripFront(s[1..]);
      assert s == ([DOT] + front) + StripFront(s);
    } else {
      assert s == [] + StripFront(s);
    }
  }

  lemma {:induction false} BackIsDots(s: seq<byte>)
    ensures exists back :: AllDots(back) && s == StripBack(s) + back
  {
    if s != [] && s[|s| - 1] == DOT {
      BackIsDots(s[..|s| - 1]);
      var back :| AllDots(back) && s[..|s| - 1] == StripBack(s[..|s| - 1]) + back;
      assert s == StripBack(s) + (back + [DOT]);
    } else {
      assert s == StripBack(s) + [];
    }
  }

  /** Only dots are stripped. */
  lemma OnlyDotsGo(d: seq<byte>)
    ensures exists front, back :: AllDots(front) && AllDots(back) && Lower(d) == front + Normalized(d) + back
  {
    FrontIsDots(Lower(d));
    BackIsDots(StripFront(Lower(d)));
    var front :| AllDots(front) && Lower(d) == front + StripFront(Lower(d));
    var back :| AllDots(back) && StripFront(Lower(d)) == Normalized(d) + back;
    assert Lower(d) == front + Normalized(d) + back;
  }

  method NormalizeDomain(d: seq<byte>) returns (r: seq<byte>)
    ensures r == Normalized(d)
  {
    r := Lower(d);
    while r != [] && r[0] == DOT
      invariant StripFront(r) == StripFront(Lower(d))
      decreases |r|
    {
      r := r[1..];
    }
    while r != [] && r[|r| - 1] == DOT
      invariant StripBack(r) == Normalized(d)
      decreases |r|
    {
      r := r[..|r| - 1];
    }
  }

  predicate SuffixMatch(name: seq<byte>, suffix: seq<byte>) {
    && suffix != [] && name != []
    && (name == suffix ||
        (|name| > |suffix| + 1 && name[|name| - |suffix| - 1] == DOT && name[|name| - |suffix|..] == suffix))
  }

  predicate ExactMatch(name: seq<byte>, domain: seq<byte>) {
    name != [] && domain != [] && name == domain
  }

  predicate DomainCovers(kind: MatchKind, domain: seq<byte>, name: seq<byte>) {
    if kind == Suffix then SuffixMatch(name, domain) else ExactMatch(name, domain)
  }

  /** A suffix covers the apex and every name with at least one more label in front of it. */
  lemma SuffixCoversSubtree(name: seq<byte>, suffix: seq<byte>)
    requires suffix != []
    ensures SuffixMatch(name, suffix) <==> name == suffix || exists host :: host != [] && name == host + [DOT] + suffix
  {
    if SuffixMatch(name, suffix) && name != suffix {
      var host := name[..|name| - |suffix| - 1];
      assert name == host + [DOT] + suffix;
    }
    forall host | host != [] && name == host + [DOT] + suffix ensures SuffixMatch(name, suffix) {}
  }

  // ---- Rule lines -----------------------------------------------------------------------------

  const BANG: byte := 33

  datatype ParsedDomain = ParsedDomain(kind: MatchKind, domain: seq<byte>)

  /** What one token names: a leading dot makes it a suffix. */
  function TokenDomain(token: seq<byte>): ParsedDomain {
    if |token| > 0 && token[0] == DOT then ParsedDomain(Suffix, Normalized(token[1..]))
    else ParsedDomain(Exact, Normalized(token))
  }

  /** What the tokens name from the `i`th on; a stray prefix names nothing. */
  function KeptFrom(parsed: seq<ParsedDomain>, i: nat): seq<ParsedDomain>
    requires i <= |parsed|
    decreases |parsed| - i
  {
    if i == |parsed| then []
    else (if |parsed[i].domain| == 0 then [] else [parsed[i]]) + KeptFrom(parsed, i + 1)
  }

  function Parsed(tokens: seq<seq<byte>>): (parsed: seq<ParsedDomain>)
    ensures |parsed| == |tokens|
  {
    seq(|tokens|, i requires 0 <= i < |tokens| => TokenDomain(tokens[i]))
  }

  /** The domains of a line's tokens. */
  function Domains(tokens: seq<seq<byte>>): seq<ParsedDomain> {
    KeptFrom(Parsed(tokens), 0)
  }

  lemma {:induction false} KeptAreBare(parsed: seq<ParsedDomain>, i: nat)
    requires i <= |parsed| && forall j :: 0 <= j < |parsed| ==> parsed[j].domain == [] || IsBare(parsed[j].domain)
    ensures forall d :: d in KeptFrom(parsed, i) ==> IsBare(d.domain)
    decreases |parsed| - i
  {
    if i < |parsed| { KeptAreBare(parsed, i + 1); }
  }

  /** `out` holds what the first `i` name. */
  ghost predicate SoFar(parsed: seq<ParsedDomain>, i: nat, out: seq<ParsedDomain>)
    requires i <= |parsed|
  {
    out + KeptFrom(parsed, i) == KeptFrom(parsed, 0)
  }

  lemma SoFarNext(parsed: seq<ParsedDomain>, i: nat, out: seq<ParsedDomain>)
    requires i < |parsed| && SoFar(parsed, i, out)
    ensures SoFar(parsed, i + 1, if |parsed[i].domain| == 0 then out else out + [parsed[i]])
  {
    var rest := KeptFrom(parsed, i + 1);
    assert (out + [parsed[i]]) + rest == out + ([parsed[i]] + rest);
    assert [] + rest == rest;
  }

  lemma SoFarAll(parsed: seq<ParsedDomain>, out: seq<ParsedDomain>)
    requires SoFar(parsed, |parsed|, out)
    ensures out == KeptFrom(parsed, 0)
  {
    assert out + [] == out;
  }

  predicate IsExclusion(token: seq<byte>) {
    |token| > 0 && token[0] == BANG
  }

  predicate HasExclusion(tokens: seq<seq<byte>>) {
    exists i :: 0 <= i < |tokens| && IsExclusion(tokens[i])
  }

  method ParseToken(token: seq<byte>) returns (parsed: ParsedDomain)
    requires |token| > 0
    ensures parsed == TokenDomain(token)
  {
    var suffix := token[0] == DOT;
    var normalized := NormalizeDomain(if suffix then token[1..] else token);
    parsed := ParsedDomain(if suffix then Suffix else Exact, normalized);
  }

  lemma ExclusionMet(tokens: seq<seq<byte>>, i: nat)
    requires i < |tokens| && IsExclusion(tokens[i])
    ensures HasExclusion(tokens)
  {
  }

  lemma NoExclusionMet(tokens: seq<seq<byte>>, out: seq<ParsedDomain>)
    requires (forall j :: 0 <= j < |tokens| ==> !IsExclusion(tokens[j])) && SoFar(Parsed(tokens), |tokens|, out)
    ensures !HasExclusion(tokens) && out == Domains(tokens)
  {
    SoFarAll(Parsed(tokens), out);
  }

  /** The domain tokens of a rule line: rejected with any exclusion among them or nothing to name. */
  method ParseDomains(tokens: seq<seq<byte>>) returns (domains: Option<seq<ParsedDomain>>)
    requires forall i :: 0 <= i < |tokens| ==> |tokens[i]| > 0
    ensures domains == if HasExclusion(tokens) || Domains(tokens) == [] then None else Some(Domains(tokens))
  {
    var out: seq<ParsedDomain> := [];
    ghost var all := Parsed(tokens);
    var i := 0;
    while i < |tokens|
      invariant 0 <= i <= |tokens| && SoFar(all, i, out)
      invariant forall j :: 0 <= j < i ==> !IsExclusion(tokens[j])
    {
      if tokens[i][0] == BANG {
        ExclusionMet(tokens, i);
        return None;
      }
      var parsed := ParseToken(tokens[i]);
      SoFarNext(all, i, out);
      out := if |parsed.domain| == 0 then out else out + [parsed];
      i := i + 1;
    }
    NoExclusionMet(tokens, out);
    domains := if out == [] then None else Some(out);
  }

  /** A rule line behind its action: what it answers, and its domain tokens. */
  datatype Line = Line(action: RuleAction, v4: seq<byte>, v6: seq<byte>, hasV4: bool, hasV6: bool,
                       tokens: seq<seq<byte>>)

  predicate AllBare(rules: seq<Rule>) {
    forall i :: 0 <= i < |rules| ==> IsBare(rules[i].domain)
  }

  predicate Holds(rules: seq<Rule>, d: ParsedDomain) {
    exists i :: 0 <= i < |rules| && rules[i].kind == d.kind && rules[i].domain == d.domain
  }

  predicate LineNames(line: Line, d: ParsedDomain) {
    !HasExclusion(line.tokens) && d in Domains(line.tokens)
  }

  predicate Names(lines: seq<Line>, d: ParsedDomain) {
    exists line :: line in lines && LineNames(line, d)
  }

  function RuleFor(line: Line, d: ParsedDomain, ttl: nat): Rule {
    Rule(line.action, d.kind, d.domain, line.v4, line.v6, line.hasV4, line.hasV6, ttl)
  }

  /** What one line adds: a rule for each domain, in order, or nothing if it is rejected. */
  function RulesOf(line: Line, ttl: nat): seq<Rule> {
    if HasExclusion(line.tokens) then []
    else
      var domains := Domains(line.tokens);
      seq(|domains|, i requires 0 <= i < |domains| => RuleFor(line, domains[i], ttl))
  }

  function AllRules(lines: seq<Line>, ttl: nat): seq<Rule> {
    if |lines| == 0 then [] else AllRules(lines[..|lines| - 1], ttl) + RulesOf(lines[|lines| - 1], ttl)
  }

  method AddLine(rules: seq<Rule>, line: Line, ttl: nat) returns (more: seq<Rule>)
    requires forall i :: 0 <= i < |line.tokens| ==> |line.tokens[i]| > 0
    ensures more == rules + RulesOf(line, ttl)
  {
    more := rules;
    ghost var added := RulesOf(line, ttl);
    var domains := ParseDomains(line.tokens);
    if domains.None? {
      assert added == [];
      return;
    }
    var k := 0;
    while k < |domains.value|
      invariant 0 <= k <= |domains.value| == |added| && more == rules + added[..k]
    {
      assert added[..k + 1] == added[..k] + [added[k]];
      more := more + [RuleFor(line, domains.value[k], ttl)];
      k := k + 1;
    }
    assert added[..k] == added;
  }

  /** The rules of every line, in the order of the file. */
  method LoadRules(lines: seq<Line>, ttl: nat) returns (rules: seq<Rule>)
    requires forall line :: line in lines ==> forall i :: 0 <= i < |line.tokens| ==> |line.tokens[i]| > 0
    ensures rules == AllRules(lines, ttl)
  {
    rules := [];
    var i := 0;
    while i < |lines|
      invariant 0 <= i <= |lines| && rules == AllRules(lines[..i], ttl)
    {
      assert lines[i] in lines && lines[..i + 1][..i] == lines[..i];
      rules := AddLine(rules, lines[i], ttl);
      i := i + 1;
    }
    assert lines[..i] == lines;
  }

  lemma LineHolds(line: Line, ttl: nat, d: ParsedDomain)
    ensures AllBare(RulesOf(line, ttl)) && (Holds(RulesOf(line, ttl), d) <==> LineNames(line, d))
  {
    var rules, domains := RulesOf(line, ttl), Domains(line.tokens);
    KeptAreBare(Parsed(line.tokens), 0);
    if !HasExclusion(line.tokens) {
      assert forall i :: 0 <= i < |rules| ==> rules[i] == RuleFor(line, domains[i], ttl) && domains[i] in domains;
      if d in domains {
        var i :| 0 <= i < |domains| && domains[i] == d;
        assert rules[i].kind == d.kind && rules[i].domain == d.domain;
      }
    }
  }

  lemma HoldsConcat(a: seq<Rule>, b: seq<Rule>, d: ParsedDomain)
    ensures Holds(a + b, d) <==> Holds(a, d) || Holds(b, d)
  {
    if i :| 0 <= i < |a| && a[i].kind == d.kind && a[i].domain == d.domain {
      assert (a + b)[i] == a[i];
    }
    if i :| 0 <= i < |b| && b[i].kind == d.kind && b[i].domain == d.domain {
      assert (a + b)[|a| + i] == b[i];
    }
  }

  lemma NamesLast(lines: seq<Line>, d: ParsedDomain)
    requires |lines| > 0
    ensures Names(lines, d) <==> Names(lines[..|lines| - 1], d) || LineNames(lines[|lines| - 1], d)
  {
    var fewer, last := lines[..|lines| - 1], lines[|lines| - 1];
    assert lines == fewer + [last];
    if line :| line in lines && LineNames(line, d) { assert line in fewer || line == last; }
    if line :| line in fewer && LineNames(line, d) { assert line in lines; }
    assert last in lines;
  }

  lemma AllBareConcat(a: seq<Rule>, b: seq<Rule>)
    requires AllBare(a) && AllBare(b)
    ensures AllBare(a + b)
  {
  }

  /** There is a rule for exactly the domains of the lines that are not rejected, and all are bare. */
  lemma {:induction false} LoadedRules(lines: seq<Line>, ttl: nat, d: ParsedDomain)
    ensures AllBare(AllRules(lines, ttl)) && (Holds(AllRules(lines, ttl), d) <==> Names(lines, d))
    decreases |lines|
  {
    if |lines| > 0 {
      var n := |lines| - 1;
      LoadedRules(lines[..n], ttl, d);
      LineHolds(lines[n], ttl, d);
      NamesLast(lines, d);
      HoldsConcat(AllRules(lines[..n], ttl), RulesOf(lines[n], ttl), d);
      AllBareConcat(AllRules(lines[..n], ttl), RulesOf(lines[n], ttl));
    }
  }

  /** The first rule that covers `name`, or the number of rules. */
  method Match(rules: seq<Rule>, name: seq<byte>) returns (i: nat)
    ensures i <= |rules|
    ensures forall j :: 0 <= j < i ==> !DomainCovers(rules[j].kind, rules[j].domain, name)
    ensures i < |rules| ==> DomainCovers(rules[i].kind, rules[i].domain, name)
  {
    i := 0;
    while i < |rules| && !DomainCovers(rules[i].kind, rules[i].domain, name)
      invariant i <= |rules| && forall j :: 0 <= j < i ==> !DomainCovers(rules[j].kind, rules[j].domain, name)
    {
      i := i + 1;
    }
  }

  function NamespaceOf(rule: Rule): seq<byte> {
    if rule.kind == Suffix then [DOT] + rule.domain else rule.domain
  }

  /** The rules' namespaces in the order they first appear, each once. */
  method Namespaces(rules: seq<Rule>) returns (out: seq<seq<byte>>)
    ensures forall ns :: ns in out <==> exists i :: 0 <= i < |rules| && NamespaceOf(rules[i]) == ns
    ensures forall a, b :: 0 <= a < b < |out| ==> out[a] != out[b]
    ensures forall a, b :: 0 <= a < b < |out| ==> FirstIndex(rules, out[a], 0) < FirstIndex(rules, out[b], 0)
  {
    out := [];
    var seen: set<seq<byte>> := {};
    var i := 0;
    while i < |rules|
      invariant 0 <= i <= |rules|
      invariant forall ns :: ns in seen <==> ns in out
      invariant forall ns :: ns in out <==> exists j :: 0 <= j < i && NamespaceOf(rules[j]) == ns
      invariant forall a, b :: 0 <= a < b < |out| ==> out[a] != out[b]
      invariant forall a :: 0 <= a < |out| ==> FirstIndex(rules, out[a], 0) < i
      invariant forall a, b :: 0 <= a < b < |out| ==> FirstIndex(rules, out[a], 0) < FirstIndex(rules, out[b], 0)
    {
      var ns := NamespaceOf(rules[i]);
      if ns !in seen {
        FirstIndexIs(rules, ns, 0, i);
        seen := seen + {ns};
        out := out + [ns];
      }
      i := i + 1;
    }
  }

  function FirstIndex(rules: seq<Rule>, ns: seq<byte>, from: nat): (i: nat)
    requires from <= |rules|
    decreases |rules| - from
  {
    if from == |rules| || NamespaceOf(rules[from]) == ns then from else FirstIndex(rules, ns, from + 1)
  }

  lemma {:induction false} FirstIndexIs(rules: seq<Rule>, ns: seq<byte>, from: nat, i: nat)
    requires from <= i < |rules| && NamespaceOf(rules[i]) == ns
    requires forall j :: from <= j < i ==> NamespaceOf(rules[j]) != ns
    ensures FirstIndex(rules, ns, from) == i
    decreases i - from
  {
    if from < i { FirstIndexIs(rules, ns, from + 1, i); }
  }

  /** The policy table's own reading of a namespace: a leading dot for a subtree, else one host. */
  predicate NamespaceCovers(ns: seq<byte>, name: seq<byte>) {
    if ns != [] && ns[0] == DOT then SuffixMatch(name, ns[1..]) else ExactMatch(name, ns)
  }

  /** The policy table sends a name here exactly when some rule covers it. */
  lemma TableAgreesWithRules(rules: seq<Rule>, namespaces: seq<seq<byte>>, name: seq<byte>)
    requires AllBare(rules)
    requires forall ns :: ns in namespaces <==> exists i :: 0 <= i < |rules| && NamespaceOf(rules[i]) == ns
    ensures (exists ns :: ns in namespaces && NamespaceCovers(ns, name)) <==>
              exists i :: 0 <= i < |rules| && DomainCovers(rules[i].kind, rules[i].domain, name)
  {
    forall i | 0 <= i < |rules|
      ensures NamespaceCovers(NamespaceOf(rules[i]), name) <==> DomainCovers(rules[i].kind, rules[i].domain, name) {
      if rules[i].kind == Suffix { assert NamespaceOf(rules[i])[1..] == rules[i].domain; }
    }
    if ns :| ns in namespaces && NamespaceCovers(ns, name) {
      var i :| 0 <= i < |rules| && NamespaceOf(rules[i]) == ns;
      assert DomainCovers(rules[i].kind, rules[i].domain, name);
    }
    if i :| 0 <= i < |rules| && DomainCovers(rules[i].kind, rules[i].domain, name) {
      assert NamespaceOf(rules[i]) in namespaces;
    }
  }
}
