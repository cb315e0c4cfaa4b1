/** Answers built here rather than forwarded (src/dns/answer.cpp, src/dns/resolver.cpp:334-353,
    src/dns/message.cpp:373-393). */
module LocalAnswer {
  import opened Bytes
  import opened NameWalk
  import opened NameCodec
  import opened Records
  import opened Truncation
  import opened Rules

  const TYPE_A := 1
  const TYPE_AAAA := 28
  const TYPE_SVCB := 64
  const TYPE_HTTPS := 65
  const CLASS_IN := 1
  const RCODE_NO_ERROR: byte := 0
  const RCODE_NX_DOMAIN: byte := 3

  datatype Action = Answer | NoData | Forward

  function DecideAction(qtype: nat): Action {
    if qtype == TYPE_A || qtype == TYPE_AAAA then Answer
    else if qtype == TYPE_HTTPS || qtype == TYPE_SVCB then NoData
    else Forward
  }

  // ---- The header -----------------------------------------------------------------------------

  function HeaderByte(query: seq<byte>, rcode: byte, i: nat): byte
    requires i < |query| && rcode < 16
  {
    if i == 2 then 0x81 else if i == 3 then 0x80 + rcode else if 6 <= i < 12 then 0 else query[i]
  }

  /** The query's header as a reply's and its question, without records. */
  function HeaderReply(query: seq<byte>, questionEnd: nat, rcode: byte): (r: seq<byte>)
    requires questionEnd <= |query| && rcode < 16
  {
    seq(questionEnd, i requires 0 <= i < questionEnd => HeaderByte(query, rcode, i))
  }

  method BuildResponseHeader(query: seq<byte>, questionEnd: nat, rcode: byte) returns (r: seq<byte>)
    requires (questionEnd == 0 || questionEnd >= 12) && rcode < 16
    ensures r == if questionEnd == 0 || questionEnd > |query| then [] else HeaderReply(query, questionEnd, rcode)
  {
    if questionEnd == 0 || questionEnd > |query| { return []; }
    r := query[..questionEnd];
    r := r[2 := 0x81];
    r := r[3 := 0x80 + rcode];
    r := r[6 := 0][7 := 0];
    r := r[8 := 0][9 := 0];
    r := r[10 := 0][11 := 0];
  }

  /** A reply without records is exactly what its header announces if and only if the query
      announced one question, whose count the reply keeps. */
  lemma StatusReplyIsConsistentIff(query: seq<byte>, rcode: byte)
    requires IsQuery(query) && rcode < 16
    ensures var r := HeaderReply(query, QueryOf(query).questionEnd, rcode);
            && |r| >= 12 && RecordCount(r) == 0 && r[12..] == query[12..QueryOf(query).questionEnd]
            && (Consistent(r) <==> QdCount(query) == 1)
  {
    var r := HeaderReply(query, QueryOf(query).questionEnd, rcode);
    assert QdCount(r) == QdCount(query);
    LoneQuestion(query, r);
  }

  // ---- One address ----------------------------------------------------------------------------

  /** The record appended: the question's name by a pointer, type, class IN, TTL and address. */
  function AddressRecord(qtype: nat, ttl: nat, address: seq<byte>): (r: seq<byte>)
    requires qtype < 65536 && ttl < 0x1_0000_0000 && |address| < 65536
    ensures |r| == 12 + |address|
    ensures r[0] == 0xC0 && r[1] == 0x0C && Read16(r, 10) == |address|
  {
    Word(0xC00C) + Word(qtype) + Word(CLASS_IN) + Word(ttl / 65536) + Word(ttl % 65536) + Word(|address|) + address
  }

  function Replied(query: seq<byte>, questionEnd: nat, qtype: nat, ttl: nat, address: seq<byte>): seq<byte>
    requires 12 <= questionEnd <= |query| && qtype < 65536 && ttl < 0x1_0000_0000 && |address| < 65536
  {
    HeaderReply(query, questionEnd, RCODE_NO_ERROR)[7 := 1] + AddressRecord(qtype, ttl, address)
  }

  /** The address a rule answers a type with, if it has one. */
  function AddressFor(rule: Rule, qtype: nat): Option<seq<byte>> {
    if rule.action == Block then None
    else if qtype == TYPE_A then (if rule.hasV4 then Some(rule.v4) else None)
    else if qtype == TYPE_AAAA && !rule.hasV6 then None
    else Some(rule.v6)
  }

  predicate IsRule(rule: Rule) {
    rule.ttl < 0x1_0000_0000 && |rule.v4| == 4 && |rule.v6| == 16
  }

  /** What a rule answers: an address, no data, or that the name does not exist. */
  function Response(query: seq<byte>, questionEnd: nat, qtype: nat, rule: Rule, action: Action): seq<byte>
    requires IsRule(rule) && 12 <= questionEnd <= |query| && qtype < 65536
  {
    var address := if action == Answer then AddressFor(rule, qtype) else None;
    if address.Some? then Replied(query, questionEnd, qtype, rule.ttl, address.value)
    else HeaderReply(query, questionEnd, if rule.action == Block then RCODE_NX_DOMAIN else RCODE_NO_ERROR)
  }

  lemma Appended(r: seq<byte>, qtype: nat, ttl: nat, address: seq<byte>)
    requires qtype < 65536 && ttl < 0x1_0000_0000 && |address| < 65536
    ensures r + AddressRecord(qtype, ttl, address) ==
            r + Word(0xC00C) + Word(qtype) + Word(CLASS_IN) + Word(ttl / 65536) + Word(ttl % 65536) +
            Word(|address|) + address
  {
  }

  method BuildResponse(query: seq<byte>, q: Query, rule: Rule, action: Action) returns (r: seq<byte>)
    requires IsRule(rule) && 12 <= q.questionEnd <= |query| && q.qtype < 65536
    ensures action == Forward ==> r == []
    ensures action != Forward ==> r == Response(query, q.questionEnd, q.qtype, rule, action)
  {
    if action == Forward { return []; }
    var block := rule.action == Block;
    var answer := !block && action == Answer;
    if answer {
      if (q.qtype == TYPE_A && !rule.hasV4) || (q.qtype == TYPE_AAAA && !rule.hasV6) { answer := false; }
    }
    r := BuildResponseHeader(query, q.questionEnd, if block then RCODE_NX_DOMAIN else RCODE_NO_ERROR);
    if r == [] || !answer { return; }
    r := r[7 := 1];
    Appended(r, q.qtype, rule.ttl, if q.qtype == TYPE_A then rule.v4 else rule.v6);
    r := r + Word(0xC00C);
    r := r + Word(q.qtype);
    r := r + Word(CLASS_IN);
    r := r + Word(rule.ttl / 65536) + Word(rule.ttl % 65536);
    if q.qtype == TYPE_A {
      r := r + Word(|rule.v4|);
      r := r + rule.v4;
    } else {
      r := r + Word(|rule.v6|);
      r := r + rule.v6;
    }
  }

  /** The record appended is walked whole, by its pointer back to the question, wherever it is put. */
  lemma AddressRecordEnds(query: seq<byte>, r: seq<byte>)
    requires IsQuery(query)
    requires var e := QueryOf(query).questionEnd;
             && e + 12 <= |r| && Agree(query, r, 12, e - 4) && r[e] == 0xC0 && r[e + 1] == 0x0C
             && e + 12 + Read16(r, e + 10) == |r|
    ensures RecordEnd(r, QueryOf(query).questionEnd) == Some(|r|)
  {
    var e := QueryOf(query).questionEnd;
    QuestionWalks(query, r);
    var hops: nat :| ReachesRoot(r, 12, true, hops);
    assert HopAt(r, e, true) == Pointer(12);
    assert ReachesRoot(r, e, true, hops + 1);
    assert ReportedEnd(r, e) == e + 2;
  }

  lemma RepliedBytes(query: seq<byte>, qtype: nat, ttl: nat, address: seq<byte>)
    requires IsQuery(query) && qtype < 65536 && ttl < 0x1_0000_0000 && |address| < 65536
    ensures var e, r := QueryOf(query).questionEnd, Replied(query, QueryOf(query).questionEnd, qtype, ttl, address);
            && |r| == e + 12 + |address| && Agree(query, r, 12, e)
            && r[e] == 0xC0 && r[e + 1] == 0x0C && Read16(r, e + 10) == |address|
            && QdCount(r) == QdCount(query) && AnCount(r) == 1 && NsCount(r) == 0 && ArCount(r) == 0
  {
  }

  /** With one question asked, an address reply re-walks to exactly one answer and ends there. */
  lemma AddressReplyIsConsistent(query: seq<byte>, qtype: nat, ttl: nat, address: seq<byte>)
    requires IsQuery(query) && QdCount(query) == 1 && qtype < 65536 && ttl < 0x1_0000_0000 && |address| < 65536
    ensures var r := Replied(query, QueryOf(query).questionEnd, qtype, ttl, address);
            && |r| >= 12 && AnCount(r) == 1 && RecordCount(r) == 1 && Consistent(r)
            && RecordsStart(r) == Some(QueryOf(query).questionEnd) && RecordEnds(r) == [|r|]
  {
    var e, r := QueryOf(query).questionEnd, Replied(query, QueryOf(query).questionEnd, qtype, ttl, address);
    RepliedBytes(query, qtype, ttl, address);
    QuestionWalks(query, r);
    AddressRecordEnds(query, r);
    assert RecordsStart(r) == QuestionsEnd(r, e, 0);
    assert RecordEnds(r) == [|r|] + Ends(r, |r|, 0);
  }

  // ---- What a reply says ----------------------------------------------------------------------

  /** Byte by byte: one answer behind the question, its name a pointer to the question's, of the type
      asked for and class IN, with the time to live in four bytes, and the address. */
  predicate CarriesAddress(r: seq<byte>, e: nat, qtype: nat, ttl: nat, address: seq<byte>) {
    && e >= 12 && |r| == e + 12 + |address| && r[3] == 0x80 && r[6] == 0 && r[7] == 1
    && r[e] == 0xC0 && r[e + 1] == 12 && Read16(r, e + 2) == qtype && Read16(r, e + 4) == 1
    && Read16(r, e + 6) * 65536 + Read16(r, e + 8) == ttl && Read16(r, e + 10) == |address|
    && r[e + 12..] == address
  }

  /** No record, and this response code. */
  predicate CarriesNothing(r: seq<byte>, e: nat, rcode: byte) {
    && e >= 12 && |r| == e && rcode < 16 && r[3] == 0x80 + rcode
    && Read16(r, 6) == 0 && Read16(r, 8) == 0 && Read16(r, 10) == 0
  }

  /** A blocked name does not exist. Otherwise type 1 gets the IPv4 address and type 28 the IPv6 one, if the
      rule has it, and everything else gets no data. */
  predicate Says(r: seq<byte>, q: Query, rule: Rule) {
    if rule.action == Block then CarriesNothing(r, q.questionEnd, 3)
    else if q.qtype == 1 && rule.hasV4 then |rule.v4| == 4 && CarriesAddress(r, q.questionEnd, 1, rule.ttl, rule.v4)
    else if q.qtype == 28 && rule.hasV6 then |rule.v6| == 16 && CarriesAddress(r, q.questionEnd, 28, rule.ttl, rule.v6)
    else CarriesNothing(r, q.questionEnd, 0)
  }

  lemma AddressIsCarried(query: seq<byte>, e: nat, qtype: nat, ttl: nat, address: seq<byte>)
    requires 12 <= e <= |query| && qtype < 65536 && ttl < 0x1_0000_0000 && |address| < 65536
    ensures CarriesAddress(Replied(query, e, qtype, ttl, address), e, qtype, ttl, address)
  {
    var header, record := HeaderReply(query, e, RCODE_NO_ERROR)[7 := 1], AddressRecord(qtype, ttl, address);
    RecordFields(qtype, ttl, address);
    Behind(header, record, 2);
    Behind(header, record, 4);
    Behind(header, record, 6);
    Behind(header, record, 8);
    Behind(header, record, 10);
    assert (header + record)[e] == record[0] && (header + record)[e + 1] == record[1];
  }

  lemma Behind(header: seq<byte>, record: seq<byte>, k: nat)
    requires k + 2 <= |record| && 12 <= |record|
    ensures Read16(header + record, |header| + k) == Read16(record, k)
    ensures (header + record)[|header| + 12..] == record[12..]
  {
  }

  lemma RecordFields(qtype: nat, ttl: nat, address: seq<byte>)
    requires qtype < 65536 && ttl < 0x1_0000_0000 && |address| < 65536
    ensures var record := AddressRecord(qtype, ttl, address);
            && Read16(record, 2) == qtype && Read16(record, 4) == 1 && Read16(record, 10) == |address|
            && Read16(record, 6) == ttl / 65536 && Read16(record, 8) == ttl % 65536 && record[12..] == address
  {
  }

  lemma ResponseSays(query: seq<byte>, q: Query, rule: Rule, action: Action)
    requires 12 <= q.questionEnd <= |query| && q.qtype < 65536 && IsRule(rule)
    requires action == if rule.action == Block then NoData else DecideAction(q.qtype)
    requires action != Forward
    ensures Says(Response(query, q.questionEnd, q.qtype, rule, action), q, rule)
  {
    if rule.action != Block && q.qtype == 1 && rule.hasV4 {
      AddressIsCarried(query, q.questionEnd, 1, rule.ttl, rule.v4);
    } else if rule.action != Block && q.qtype == 28 && rule.hasV6 {
      AddressIsCarried(query, q.questionEnd, 28, rule.ttl, rule.v6);
    }
  }

  // ---- The resolver's decision ----------------------------------------------------------------

  /** A standard query, not a response, of class IN. */
  predicate IsStandard(q: Query) {
    q.flags < 0x8000 && q.flags / 2048 % 16 == 0 && q.qclass == CLASS_IN
  }

  /** The query types a rule owns. */
  predicate Owned(rule: Rule, qtype: nat) {
    rule.action == Block || qtype in {TYPE_A, TYPE_AAAA, TYPE_HTTPS, TYPE_SVCB}
  }

  /** The `i`th rule is the first that covers `name`. */
  predicate FirstCovers(rules: seq<Rule>, i: nat, name: seq<byte>) {
    && i < |rules| && DomainCovers(rules[i].kind, rules[i].domain, name)
    && forall j :: 0 <= j < i ==> !DomainCovers(rules[j].kind, rules[j].domain, name)
  }

  /** A standard query for a covered name whose type the first rule that covers it owns. */
  ghost predicate IsOurs(rules: seq<Rule>, q: Query) {
    IsStandard(q) && exists i: nat :: FirstCovers(rules, i, q.name) && Owned(rules[i], q.qtype)
  }

  lemma ResponseIsSound(query: seq<byte>, rule: Rule, action: Action)
    requires IsQuery(query) && IsRule(rule)
    ensures var r := Response(query, QueryOf(query).questionEnd, QueryOf(query).qtype, rule, action);
            && |r| >= 12 && r[..2] == query[..2] && r[2] == 0x81
            && (QdCount(query) == 1 ==> Consistent(r) && RecordCount(r) == AnCount(r) <= 1)
  {
    var q := QueryOf(query);
    var address := if action == Answer then AddressFor(rule, q.qtype) else None;
    if address.Some? {
      RepliedBytes(query, q.qtype, rule.ttl, address.value);
      if QdCount(query) == 1 { AddressReplyIsConsistent(query, q.qtype, rule.ttl, address.value); }
    } else {
      StatusReplyIsConsistentIff(query, if rule.action == Block then RCODE_NX_DOMAIN else RCODE_NO_ERROR);
    }
  }

  /** Ours are the standard queries of class 1 for a name whose first covering rule blocks it, or redirects
      it and the type is 1, 28, 64 or 65. */
  lemma OursIff(rules: seq<Rule>, q: Query)
    ensures IsOurs(rules, q) <==>
            && q.flags / 32768 == 0 && q.flags / 2048 % 16 == 0 && q.qclass == 1
            && exists i: nat :: FirstCovers(rules, i, q.name) &&
                 (rules[i].action == Block || q.qtype in {1, 28, 64, 65})
  {
    if i: nat :| FirstCovers(rules, i, q.name) && (rules[i].action == Block || q.qtype in {1, 28, 64, 65}) {
      assert Owned(rules[i], q.qtype);
    }
    if i: nat :| FirstCovers(rules, i, q.name) && Owned(rules[i], q.qtype) {
      assert rules[i].action == Block || q.qtype in {1, 28, 64, 65};
    }
  }

  /** Empty means the query is not ours and is forwarded; every reply carries the query's id and,
      with one question asked, is exactly what its header announces. */
  method TryAnswer(rules: seq<Rule>, message: seq<byte>, q: Query) returns (r: seq<byte>)
    requires IsQuery(message) && q == QueryOf(message) && forall i :: 0 <= i < |rules| ==> IsRule(rules[i])
    ensures r != [] <==> IsOurs(rules, q)
    ensures r != [] ==> |r| >= 12 && r[..2] == message[..2] && r[2] == 0x81
    ensures r != [] && QdCount(message) == 1 ==> Consistent(r) && RecordCount(r) == AnCount(r) <= 1
    ensures r != [] ==> exists i: nat :: FirstCovers(rules, i, q.name) && Says(r, q, rules[i])
  {
    if q.flags / 32768 % 2 != 0 { return []; }
    if q.flags / 2048 % 16 != 0 { return []; }
    if q.qclass != CLASS_IN { return []; }
    var i := Match(rules, q.name);
    if i == |rules| { return []; }
    assert FirstCovers(rules, i, q.name);
    var action := if rules[i].action == Block then NoData else DecideAction(q.qtype);
    if action == Forward { return []; }
    r := BuildResponse(message, q, rules[i], action);
    ResponseIsSound(message, rules[i], action);
    ResponseSays(message, q, rules[i], action);
  }
}
