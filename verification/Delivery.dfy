/** Handing an answer to a UDP client (src/dns/dns_proxy.cpp:508-510, 652-672): the size the client
    asked for (QueryUdpPayloadSize in src/dns/message.cpp), and why the answer always fits it. */
module Delivery {
  import opened Bytes
  import opened NameWalk
  import opened NameCodec
  import opened Records
  import opened UdpBudget
  import opened Truncation
  import opened LocalAnswer
  import Racing

  const MIN_UDP_PAYLOAD := 512
  const MAX_UDP_PAYLOAD := 1232
  const TYPE_OPT := 41
  const RCODE_SERV_FAIL: byte := 2

  // ---- The size asked for ---------------------------------------------------------------------

  /** The size in the first OPT record among the `n` records from `off` on; none if the walk breaks
      before it, or if the OPT carries data (section 6.2.3 of RFC 6891). */
  ghost function OptPayload(dns: seq<byte>, off: nat, n: nat): Option<nat>
    decreases n
  {
    if n == 0 || !HasName(dns, off, true) || ReportedEnd(dns, off) + 10 > |dns| then None
    else
      var at := ReportedEnd(dns, off);
      if Read16(dns, at) == TYPE_OPT then (if Read16(dns, at + 8) == 0 then Some(Read16(dns, at + 2)) else None)
      else if at + 10 + Read16(dns, at + 8) > |dns| then None
      else OptPayload(dns, at + 10 + Read16(dns, at + 8), n - 1)
  }

  /** The additional records are looked for right behind the questions, as in a query with neither
      answers nor authorities. */
  ghost function RequestedPayload(dns: seq<byte>): Option<nat> {
    if |dns| < 12 || dns[2] >= 0x80 || RecordsStart(dns).None? then None
    else OptPayload(dns, RecordsStart(dns).value, ArCount(dns))
  }

  /** What was asked for, or 512 if nothing or less was. */
  function AtLeastMin(payload: Option<nat>): nat {
    if payload.Some? && payload.value >= MIN_UDP_PAYLOAD then payload.value else MIN_UDP_PAYLOAD
  }

  method SkipQuestions(dns: seq<byte>) returns (ok: bool, off: nat)
    requires |dns| >= 12
    ensures ok <==> RecordsStart(dns).Some?
    ensures ok ==> off == RecordsStart(dns).value
  {
    off := 12;
    var i := 0;
    while i < QdCount(dns)
      invariant 0 <= i <= QdCount(dns) && RecordsStart(dns) == QuestionsEnd(dns, off, QdCount(dns) - i)
    {
      var named, end := SkipName(dns, off);
      if !named { return false, off; }
      if end + 4 > |dns| { return false, off; }
      off := end + 4;
      i := i + 1;
    }
    ok := true;
  }

  /** The size in the first OPT record among the `n` from `start` on. */
  method ReadOpt(dns: seq<byte>, start: nat, n: nat) returns (payload: Option<nat>)
    ensures payload == OptPayload(dns, start, n)
  {
    var off, i := start, 0;
    while i < n
      invariant 0 <= i <= n && 0 <= off
      invariant OptPayload(dns, start, n) == OptPayload(dns, off, n - i)
    {
      var named, at := SkipName(dns, off);
      if !named { return None; }
      if at + 10 > |dns| { return None; }
      var rdlength := Read16(dns, at + 8);
      if Read16(dns, at) == TYPE_OPT {
        if rdlength != 0 { return None; }
        return Some(Read16(dns, at + 2));
      }
      if at + 10 + rdlength > |dns| { return None; }
      off := at + 10 + rdlength;
      i := i + 1;
    }
    return None;
  }

  method QueryUdpPayloadSize(dns: seq<byte>) returns (payload: nat)
    ensures payload == AtLeastMin(RequestedPayload(dns))
  {
    if |dns| < 12 { return MIN_UDP_PAYLOAD; }
    if dns[2] / 128 % 2 != 0 { return MIN_UDP_PAYLOAD; }
    var ok, off := SkipQuestions(dns);
    if !ok { return MIN_UDP_PAYLOAD; }
    var asked := ReadOpt(dns, off, ArCount(dns));
    if asked.None? || asked.value < MIN_UDP_PAYLOAD { return MIN_UDP_PAYLOAD; }
    return asked.value;
  }

  method NegotiateUdpPayload(dns: seq<byte>) returns (payload: nat)
    ensures payload == Min(AtLeastMin(RequestedPayload(dns)), MAX_UDP_PAYLOAD)
    ensures MIN_UDP_PAYLOAD <= payload <= MAX_UDP_PAYLOAD
  {
    payload := QueryUdpPayloadSize(dns);
    if payload > MAX_UDP_PAYLOAD { payload := MAX_UDP_PAYLOAD; }
  }

  // ---- A question is short --------------------------------------------------------------------

  /** Labels without pointers take one byte more than their text each, and one for the root. */
  lemma {:induction false} WireAndText(dns: seq<byte>, pos: nat, hops: nat, acc: seq<byte>)
    requires ReachesRoot(dns, pos, false, hops)
    ensures LabelRun(dns, pos) - pos <= |TextFrom(dns, pos, false, hops, acc)| - |acc| + 1
    ensures acc != [] ==> LabelRun(dns, pos) - pos == |TextFrom(dns, pos, false, hops, acc)| - |acc|
    decreases hops
  {
    if hops > 0 {
      var next := HopAt(dns, pos, false).next;
      WireAndText(dns, next, hops - 1, Dotted(acc, dns[pos + 1..next]));
    }
  }

  /** The question of a query that parses ends within the first 271 bytes. */
  lemma QuestionEndBound(dns: seq<byte>)
    requires IsQuery(dns)
    ensures 17 <= QueryOf(dns).questionEnd <= 271
  {
    var hops: nat :| ReachesRoot(dns, 12, false, hops);
    LabelRunInside(dns, 12, hops);
    NameTextIs(dns, 12, false, hops);
    WireAndText(dns, 12, hops, []);
  }

  // ---- Delivery -------------------------------------------------------------------------------

  /** What a UDP client with room for `payload` bytes is sent in answer to `message`. */
  ghost function Datagram(message: seq<byte>, answer: Racing.Answer, payload: nat): seq<byte>
    requires IsQuery(message)
  {
    var failure := HeaderReply(message, QueryOf(message).questionEnd, RCODE_SERV_FAIL);
    var response := if answer.Reply? then answer.response else failure;
    match VerdictOf(message, response, payload)
    case CannotFit => failure
    case Fits => response
    case Truncated =>
      var keep := KeptLength(response, QueryOf(message).questionEnd, payload);
      SurvivorFacts(response, payload);
      Cut(response, keep, Shares(Counts(response), Survivors(response, payload)))
  }

  /** The answer cut to the client's size, or the failure if it cannot be. */
  method DeliverUdp(message: seq<byte>, q: Query, answer: Racing.Answer, payload: nat) returns (sent: seq<byte>)
    requires IsQuery(message) && q == QueryOf(message)
    ensures sent == Datagram(message, answer, payload)
  {
    QuestionEndBound(message);
    var failure := BuildResponseHeader(message, q.questionEnd, RCODE_SERV_FAIL);
    var cut := new Message(if answer.Reply? then answer.response else failure);
    var verdict := ApplyUdpBudget(message, cut, payload);
    if verdict == CannotFit { return failure; }
    return cut.bytes;
  }

  /** A cut leaves the bytes before it, and sets TC. */
  lemma CutLeaves(response: seq<byte>, keep: nat, payload: nat)
    requires |response| >= 12 && 12 <= keep <= |response|
    ensures var sent := Cut(response, keep, Shares(Counts(response), Survivors(response, payload)));
            && |sent| == keep && sent[2] / 2 % 2 == 1
            && forall i :: 0 <= i < keep && i != 2 && !(6 <= i < 12) ==> sent[i] == response[i]
  {
    CutTouchesHeaderOnly(response, keep, Shares(Counts(response), Survivors(response, payload)));
  }

  /** What is left of a long response that repeats the question. */
  lemma CutAnswer(message: seq<byte>, response: seq<byte>, payload: nat)
    requires IsQuery(message) && RepeatsQuestion(message, response) && |response| >= 12
    requires QueryOf(message).questionEnd <= payload < |response| && 12 <= QueryOf(message).questionEnd
    requires VerdictOf(message, response, payload) == Truncated
    ensures var sent, e := Datagram(message, Racing.Reply(response), payload), QueryOf(message).questionEnd;
            && e <= |sent| <= payload && sent[2] / 2 % 2 == 1
            && forall i :: 0 <= i < |sent| && i != 2 && !(6 <= i < 12) ==> sent[i] == response[i]
  {
    var e, keep := QueryOf(message).questionEnd, KeptLength(response, QueryOf(message).questionEnd, payload);
    assert e <= keep by { QuestionIsKept(message, response, payload); }
    assert keep <= payload by { CutIsLongest(response, e, payload); }
    CutLeaves(response, keep, payload);
  }

  lemma SameIdAndQuestion(a: seq<byte>, b: seq<byte>, e: nat)
    requires 12 <= e <= |a| && e <= |b|
    requires forall i :: 0 <= i < e && i != 2 && !(6 <= i < 12) ==> a[i] == b[i]
    ensures a[..2] == b[..2] && a[12..e] == b[12..e]
  {
  }

  /** A response is sent whole if it fits, to the byte; it is cut only where the question fits, to the byte;
      and it cannot be cut if it is shorter than the question, or than a header. */
  lemma VerdictIff(message: seq<byte>, response: seq<byte>, payload: nat)
    requires IsQuery(message)
    ensures var e := QueryOf(message).questionEnd;
            && (VerdictOf(message, response, payload) == Fits <==> e <= |response| <= payload)
            && (VerdictOf(message, response, payload) == Truncated <==> e <= payload < |response|)
  {
    QuestionEndBound(message);
  }

  /** A valid answer is never replaced by a failure for lack of room: whatever size was negotiated,
      what is sent fits it and repeats the client's id and question, and if anything had to be cut
      it says so. */
  lemma ValidAnswerIsDelivered(message: seq<byte>, response: seq<byte>, payload: nat)
    requires Racing.ValidAnswer(response, message) && payload >= MIN_UDP_PAYLOAD
    ensures VerdictOf(message, response, payload) != CannotFit
    ensures var sent, e := Datagram(message, Racing.Reply(response), payload), QueryOf(message).questionEnd;
            && e <= |sent| <= payload && sent[..2] == message[..2] && sent[12..e] == message[12..e]
            && if |response| <= payload then sent == response else sent[2] / 2 % 2 == 1
  {
    QuestionEndBound(message);
    if |response| > payload {
      CutAnswer(message, response, payload);
      var sent, e := Datagram(message, Racing.Reply(response), payload), QueryOf(message).questionEnd;
      SameIdAndQuestion(sent, response, e);
    }
  }

  /** A failure always fits, and is the query's id and question with a response's flags, code 2 and no
      records. */
  lemma FailureIsDelivered(message: seq<byte>, payload: nat)
    requires IsQuery(message) && payload >= MIN_UDP_PAYLOAD
    ensures var sent, e := Datagram(message, Racing.Failure, payload), QueryOf(message).questionEnd;
            && sent == HeaderReply(message, e, RCODE_SERV_FAIL)
            && 12 <= |sent| == e <= payload && sent[..2] == message[..2] && sent[4..6] == message[4..6]
            && sent[2] == 0x81 && sent[3] == 0x82 && sent[6..12] == [0, 0, 0, 0, 0, 0] && sent[12..] == message[12..e]
  {
    QuestionEndBound(message);
    FailureBytes(message, QueryOf(message).questionEnd);
  }

  lemma FailureBytes(message: seq<byte>, e: nat)
    requires 12 <= e <= |message|
    ensures var r := HeaderReply(message, e, RCODE_SERV_FAIL);
            && |r| == e && r[..2] == message[..2] && r[4..6] == message[4..6] && r[2] == 0x81 && r[3] == 0x82
            && r[6..12] == [0, 0, 0, 0, 0, 0] && r[12..] == message[12..e]
  {
  }
}
