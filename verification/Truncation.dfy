/** What a truncated response is, for every query, response and budget. */
module Truncation {
  import opened Bytes
  import opened NameWalk
  import opened NameCodec
  import opened Records
  import opened UdpBudget

  /** The response carries the query's question bytes where the query has them. */
  ghost predicate RepeatsQuestion(query: seq<byte>, response: seq<byte>)
    requires IsQuery(query)
  {
    var e := QueryOf(query).questionEnd;
    e <= |response| && response[12..e] == query[12..e]
  }

  /** Two messages agree on the bytes from `lo` up to `hi`. */
  predicate Agree(a: seq<byte>, b: seq<byte>, lo: nat, hi: nat) {
    hi <= |a| && hi <= |b| && forall i :: lo <= i < hi ==> a[i] == b[i]
  }

  // ---- The question -------------------------------------------------------------------

  /** A name read without pointers is the same name wherever its bytes are repeated. */
  lemma {:induction false} PlainNameRepeats(query: seq<byte>, dns: seq<byte>, pos: nat, hops: nat)
    requires ReachesRoot(query, pos, false, hops)
    requires Agree(query, dns, pos, LabelRun(query, pos) + 1)
    ensures ReachesRoot(dns, pos, true, hops)
    ensures LabelRun(dns, pos) == LabelRun(query, pos)
    ensures ReportedEnd(dns, pos) == ReportedEnd(query, pos) == LabelRun(query, pos) + 1
    decreases hops
  {
    if hops > 0 {
      var next := HopAt(query, pos, false).next;
      LabelRunInside(query, next, hops - 1);
      PlainNameRepeats(query, dns, next, hops - 1);
    }
  }

  lemma {:induction false} LabelRunInside(dns: seq<byte>, pos: nat, hops: nat)
    requires ReachesRoot(dns, pos, false, hops)
    ensures pos <= LabelRun(dns, pos) < |dns| && !EndsInPointer(dns, pos)
    decreases hops
  {
    if hops > 0 { LabelRunInside(dns, HopAt(dns, pos, false).next, hops - 1); }
  }

  lemma QuestionWalks(query: seq<byte>, dns: seq<byte>)
    requires IsQuery(query)
    requires QueryOf(query).questionEnd <= |dns| && Agree(query, dns, 12, QueryOf(query).questionEnd - 4)
    ensures HasName(dns, 12, true) && ReportedEnd(dns, 12) == QueryOf(query).questionEnd - 4
    ensures QuestionEnd(dns, 12) == Some(QueryOf(query).questionEnd)
  {
    var hops: nat :| ReachesRoot(query, 12, false, hops);
    LabelRunInside(query, 12, hops);
    PlainNameRepeats(query, dns, 12, hops);
  }

  /** Records start behind the repeated question, or, when the response announces no question
      at all, the first of them starts where the question does and ends behind it. */
  lemma FirstRecord(query: seq<byte>, response: seq<byte>)
    requires IsQuery(query) && RepeatsQuestion(query, response) && RecordsStart(response).Some?
    ensures QdCount(response) > 0 ==> QueryOf(query).questionEnd <= RecordsStart(response).value
    ensures QdCount(response) == 0 ==> RecordsStart(response).value == 12
    ensures QdCount(response) == 0 && RecordEnd(response, 12).Some? ==>
              QueryOf(query).questionEnd < RecordEnd(response, 12).value
  {
    var e := QueryOf(query).questionEnd;
    AgreeFromSlice(query, response, e);
    QuestionWalks(query, response);
    if QdCount(response) > 0 { QuestionsGrow(response, e, QdCount(response) - 1); }
  }

  /** When the response repeats the query's question, every record boundary its walker finds
      lies behind the question, whatever QDCOUNT the response claims. */
  lemma RecordsFollowQuestion(query: seq<byte>, response: seq<byte>)
    requires IsQuery(query) && RepeatsQuestion(query, response)
    ensures forall i :: 0 <= i < |RecordEnds(response)| ==> QueryOf(query).questionEnd < RecordEnds(response)[i]
  {
    if RecordEnds(response) != [] {
      FirstRecord(query, response);
      EndsIncrease(response, RecordsStart(response).value, RecordCount(response));
      assert QueryOf(query).questionEnd < RecordEnds(response)[0];
    }
  }

  lemma AgreeFromSlice(query: seq<byte>, response: seq<byte>, e: nat)
    requires 16 <= e <= |query| && e <= |response| && response[12..e] == query[12..e]
    ensures Agree(query, response, 12, e) && Agree(query, response, 12, e - 4)
  {
    forall i | 12 <= i < e ensures query[i] == response[i] {
      assert query[i] == query[12..e][i - 12] && response[i] == response[12..e][i - 12];
    }
  }

  /** A response that repeats the question never has it cut. */
  lemma QuestionIsKept(query: seq<byte>, response: seq<byte>, budget: nat)
    requires IsQuery(query) && RepeatsQuestion(query, response)
    ensures QueryOf(query).questionEnd <= KeptLength(response, QueryOf(query).questionEnd, budget)
  {
    RecordsFollowQuestion(query, response);
  }

  /** Without that, the question is cut exactly when some record boundary lies before its end
      and none lies between its end and the budget. */
  lemma QuestionIsCutIff(response: seq<byte>, questionEnd: nat, budget: nat)
    requires |response| >= 12 && questionEnd <= budget
    ensures KeptLength(response, questionEnd, budget) < questionEnd <==>
            && (exists i :: 0 <= i < |RecordEnds(response)| && RecordEnds(response)[i] < questionEnd)
            && (forall i :: 0 <= i < |RecordEnds(response)| ==>
                  RecordEnds(response)[i] < questionEnd || budget < RecordEnds(response)[i])
  {
    SurvivorFacts(response, budget);
    var ends, k := RecordEnds(response), Survivors(response, budget);
    if k > 0 {
      assert ends[k - 1] <= budget;
      assert forall i :: 0 <= i < k ==> ends[i] <= ends[k - 1];
    }
  }

  /** A query for the addresses of "aaaaaaaa", whose question ends at 26. */
  function LongQuery(): (r: seq<byte>)
    ensures |r| == 26
  {
    seq(26, i requires 0 <= i < 26 =>
      if i == 5 then 1 else if i == 12 then 8 else if 13 <= i < 21 then 97 else if i == 23 || i == 25 then 1 else 0)
  }

  /** 600 bytes without a question: a record that ends at 23, and one that takes the rest. */
  function Questionless(): (r: seq<byte>)
    ensures |r| == 600
  {
    seq(600, i requires 0 <= i < 600 =>
      if i == 2 then 0x80 else if i == 7 || i == 32 then 2 else if i == 33 then 54 else 0)
  }

  lemma LongQueryParses()
    ensures IsQuery(LongQuery()) && QueryOf(LongQuery()).questionEnd == 26
  {
    var q := LongQuery();
    assert HopAt(q, 12, false) == Label(21) && HopAt(q, 21, false) == Root;
    assert ReachesRoot(q, 21, false, 0);
    assert ReachesRoot(q, 12, false, 1);
    NameTextIs(q, 12, false, 1);
    assert TextFrom(q, 12, false, 1, []) == TextFrom(q, 21, false, 0, Dotted([], q[13..21]));
    assert HopAt(q, 12, true) == Label(21) && LabelRun(q, 21) == 21;
    assert ReportedEnd(q, 12) == 22;
  }

  lemma LacksTheQuestion()
    ensures Questionless()[12..26] != LongQuery()[12..26]
  {
    assert Questionless()[12..26][0] != LongQuery()[12..26][0];
  }

  lemma QuestionlessRecords()
    ensures RecordsStart(Questionless()) == Some(12) && RecordEnds(Questionless()) == [23, 600]
  {
    var r := Questionless();
    assert QdCount(r) == 0 && RecordCount(r) == 2;
    assert ReachesRoot(r, 12, true, 0) && ReachesRoot(r, 23, true, 0);
    assert RecordEnd(r, 12) == Some(23);
    assert Read16(r, 32) == 566 && RecordEnd(r, 23) == Some(600);
    assert Ends(r, 23, 1) == [600] + Ends(r, 600, 0);
    assert Ends(r, 12, 2) == [23] + Ends(r, 23, 1);
  }

  /** And that happens: this response to this query, cut to 512 bytes, loses part of the question. A
      caller that passes on only responses that repeat the question is safe, as is the forwarder. */
  lemma QuestionCanBeCut()
    ensures VerdictOf(LongQuery(), Questionless(), 512) == Truncated && !RepeatsQuestion(LongQuery(), Questionless())
    ensures KeptLength(Questionless(), 26, 512) == 23 < QueryOf(LongQuery()).questionEnd
  {
    LongQueryParses();
    LacksTheQuestion();
    QuestionlessRecords();
    assert [23, 600][1..] == [600];
    assert Fitting([600], 512) == 0;
  }

  // ---- The longest prefix -----------------------------------------------------------------

  /** The cut is at the last record boundary within the budget: a boundary fits the budget
      exactly when it is kept, and the cut is at one of them or right after the question. */
  lemma CutIsLongest(response: seq<byte>, questionEnd: nat, budget: nat)
    requires |response| >= 12 && questionEnd <= budget
    ensures var keep := KeptLength(response, questionEnd, budget);
            && keep <= budget
            && (keep == questionEnd || keep in RecordEnds(response))
            && forall e :: e in RecordEnds(response) ==> (e <= budget <==> e <= keep)
  {
    SurvivorFacts(response, budget);
  }

  /** The first record of each section, by its index among all records. */
  function SectionStart(dns: seq<byte>, section: nat): nat
    requires |dns| >= 12 && section <= 3
  {
    if section == 0 then 0
    else if section == 1 then AnCount(dns)
    else if section == 2 then AnCount(dns) + NsCount(dns)
    else RecordCount(dns)
  }

  /** Record `i` of the whole message, which lies in `section`, is one of the first so many of
      its section that the new count announces exactly when it ends within the cut. */
  lemma CountsAreSurvivors(response: seq<byte>, questionEnd: nat, budget: nat, section: nat, i: nat)
    requires |response| >= 12 && questionEnd <= budget && section < 3
    requires SectionStart(response, section) <= i < SectionStart(response, section + 1) && i < |RecordEnds(response)|
    ensures RecordEnds(response)[i] <= KeptLength(response, questionEnd, budget) <==>
            i - SectionStart(response, section) < Shares(Counts(response), Survivors(response, budget))[section]
  {
    SurvivorFacts(response, budget);
    SecondWalkAgrees(response, questionEnd, budget);
    SurvivorFacts(response, KeptLength(response, questionEnd, budget));
  }

  /** Only byte 2 and bytes 6 to 11 differ; byte 2 only in the TC bit, which is set. */
  lemma CutTouchesHeaderOnly(dns: seq<byte>, keep: nat, shares: seq<nat>)
    requires 12 <= keep <= |dns| && |shares| == 3 && forall s :: 0 <= s < 3 ==> shares[s] < 65536
    ensures var r := Cut(dns, keep, shares);
            && (forall i :: 0 <= i < keep && i != 2 && !(6 <= i < 12) ==> r[i] == dns[i])
            && AnCount(r) == shares[0] && NsCount(r) == shares[1] && ArCount(r) == shares[2]
            && r[2] as int / 2 % 2 == 1 && r[2] as int / 4 == dns[2] as int / 4 && r[2] % 2 == dns[2] % 2
  {
    var r := Cut(dns, keep, shares);
    assert forall i :: 0 <= i < keep ==> r[i] == CutByte(dns, shares, i);
  }

  // ---- Walking the result again -------------------------------------------------------------

  /** Every byte the walk of the name at `pos` looks at lies in [12, hi). */
  ghost predicate StaysInside(dns: seq<byte>, pos: nat, hi: nat, hops: nat)
    requires ReachesRoot(dns, pos, true, hops)
    decreases hops
  {
    12 <= pos < hi &&
    match HopAt(dns, pos, true)
    case Root => true
    case Label(next) => next <= hi && StaysInside(dns, next, hi, hops - 1)
    case Pointer(target) => pos + 2 <= hi && StaysInside(dns, target, hi, hops - 1)
  }

  ghost predicate NameInside(dns: seq<byte>, pos: nat, hi: nat) {
    exists hops: nat :: ReachesRoot(dns, pos, true, hops) && StaysInside(dns, pos, hi, hops)
  }

  /** A name whose walk stays inside the part two messages share is the same name in both. */
  lemma {:induction false} SameName(a: seq<byte>, b: seq<byte>, pos: nat, hi: nat, hops: nat)
    requires ReachesRoot(a, pos, true, hops) && StaysInside(a, pos, hi, hops)
    requires Agree(a, b, 12, hi)
    ensures ReachesRoot(b, pos, true, hops)
    ensures LabelRun(a, pos) == LabelRun(b, pos) && EndsInPointer(a, pos) == EndsInPointer(b, pos)
    decreases hops
  {
    match HopAt(a, pos, true)
    case Root =>
    case Label(next) => SameName(a, b, next, hi, hops - 1);
    case Pointer(target) => SameName(a, b, target, hi, hops - 1);
  }

  ghost predicate QuestionsInside(dns: seq<byte>, off: nat, n: nat, hi: nat)
    decreases n
  {
    n == 0 || (NameInside(dns, off, hi) && QuestionEnd(dns, off).Some? && QuestionEnd(dns, off).value <= hi &&
               QuestionsInside(dns, QuestionEnd(dns, off).value, n - 1, hi))
  }

  ghost predicate RecordsInside(dns: seq<byte>, off: nat, n: nat, hi: nat)
    decreases n
  {
    n == 0 || (NameInside(dns, off, hi) && RecordEnd(dns, off).Some? && RecordEnd(dns, off).value <= hi &&
               RecordsInside(dns, RecordEnd(dns, off).value, n - 1, hi))
  }

  /** Names made of labels stay inside. */
  lemma {:induction false} PlainNameInside(dns: seq<byte>, pos: nat, hi: nat, hops: nat)
    requires 12 <= pos && ReachesRoot(dns, pos, false, hops) && LabelRun(dns, pos) < hi
    ensures ReachesRoot(dns, pos, true, hops) && StaysInside(dns, pos, hi, hops)
    decreases hops
  {
    if hops > 0 { PlainNameInside(dns, HopAt(dns, pos, false).next, hi, hops - 1); }
  }

  /** So do names that are one pointer to such a name, the usual way to repeat the question's. */
  lemma PointerNameInside(dns: seq<byte>, pos: nat, target: nat, hi: nat)
    requires HopAt(dns, pos, true) == Pointer(target) && pos + 2 <= hi
    requires 12 <= target && HasName(dns, target, false) && LabelRun(dns, target) < hi
    ensures NameInside(dns, pos, hi)
  {
    var hops: nat :| ReachesRoot(dns, target, false, hops);
    PlainNameInside(dns, target, hi, hops);
    assert ReachesRoot(dns, pos, true, hops + 1) && StaysInside(dns, pos, hi, hops + 1);
  }

  lemma NameCarriesOver(a: seq<byte>, b: seq<byte>, pos: nat, hi: nat)
    requires NameInside(a, pos, hi) && Agree(a, b, 12, hi)
    ensures HasName(a, pos, true) && HasName(b, pos, true) && ReportedEnd(a, pos) == ReportedEnd(b, pos) && pos >= 12
  {
    var hops: nat :| ReachesRoot(a, pos, true, hops) && StaysInside(a, pos, hi, hops);
    SameName(a, b, pos, hi, hops);
  }

  lemma {:induction false} QuestionsCarryOver(a: seq<byte>, b: seq<byte>, off: nat, n: nat, hi: nat)
    requires QuestionsInside(a, off, n, hi) && Agree(a, b, 12, hi)
    ensures QuestionsEnd(a, off, n).Some? && QuestionsEnd(b, off, n) == QuestionsEnd(a, off, n)
    decreases n
  {
    if n > 0 {
      NameCarriesOver(a, b, off, hi);
      QuestionsCarryOver(a, b, QuestionEnd(a, off).value, n - 1, hi);
    }
  }

  lemma {:induction false} RecordsCarryOver(a: seq<byte>, b: seq<byte>, off: nat, n: nat, m: nat, hi: nat)
    requires n <= m && RecordsInside(a, off, n, hi) && Agree(a, b, 12, hi)
    ensures n <= |Ends(a, off, m)| && |Ends(b, off, n)| == n
    ensures forall i :: 0 <= i < n ==> Ends(b, off, n)[i] == Ends(a, off, m)[i]
    decreases n
  {
    if n > 0 {
      RecordCarriesOver(a, b, off, hi);
      RecordsCarryOver(a, b, RecordEnd(a, off).value, n - 1, m - 1, hi);
    }
  }

  lemma Rewalk(dns: seq<byte>, r: seq<byte>, k: nat, keep: nat)
    requires |dns| >= 12 && |r| >= 12 && Agree(dns, r, 12, keep)
    requires QdCount(r) == QdCount(dns) && RecordCount(r) == k <= RecordCount(dns)
    requires RecordsStart(dns).Some? && QuestionsInside(dns, 12, QdCount(dns), keep)
    requires RecordsInside(dns, RecordsStart(dns).value, k, keep)
    ensures WalksThrough(r) && k <= |RecordEnds(dns)| && RecordEnds(r) == RecordEnds(dns)[..k]
  {
    QuestionsCarryOver(dns, r, 12, QdCount(dns), keep);
    RecordsCarryOver(dns, r, RecordsStart(dns).value, k, RecordCount(dns), keep);
  }

  lemma RecordCarriesOver(a: seq<byte>, b: seq<byte>, off: nat, hi: nat)
    requires NameInside(a, off, hi) && RecordEnd(a, off).Some? && RecordEnd(a, off).value <= hi && Agree(a, b, 12, hi)
    ensures RecordEnd(b, off) == RecordEnd(a, off)
  {
    NameCarriesOver(a, b, off, hi);
    NameIsPositive(a, off);
  }

  /** The names of the questions and the surviving records stay within what is kept, clear of
      the header. */
  ghost predicate SurvivorsSelfContained(response: seq<byte>, questionEnd: nat, budget: nat)
    requires |response| >= 12
  {
    var keep := KeptLength(response, questionEnd, budget);
    && RecordsStart(response).Some?
    && QuestionsInside(response, 12, QdCount(response), keep)
    && RecordsInside(response, RecordsStart(response).value, Survivors(response, budget), keep)
  }

  /** Walking a truncated response again passes exactly the surviving records, as many as the
      rewritten counts announce, and ends at the last byte. */
  lemma TruncatedWalksThrough(response: seq<byte>, questionEnd: nat, budget: nat)
    requires |response| >= 12 && 12 <= questionEnd <= budget < |response|
    requires Survivors(response, budget) > 0 && SurvivorsSelfContained(response, questionEnd, budget)
    ensures var k, keep := Survivors(response, budget), KeptLength(response, questionEnd, budget);
            && 12 <= keep <= |response| && (forall s :: 0 <= s < 3 ==> Shares(Counts(response), k)[s] < 65536)
            && var r := Cut(response, keep, Shares(Counts(response), k));
               RecordEnds(r) == RecordEnds(response)[..k] && RecordCount(r) == k && Consistent(r)
  {
    var k, keep := Survivors(response, budget), KeptLength(response, questionEnd, budget);
    SurvivorFacts(response, budget);
    SharesFit(response, k);
    var shares := Shares(Counts(response), k);
    var r := Cut(response, keep, shares);
    CutTouchesHeaderOnly(response, keep, shares);
    assert QdCount(r) == QdCount(response);
    Rewalk(response, r, k, keep);
  }

  /** When no record survives, the question alone is left, and the result is consistent exactly
      when the response announced one question. */
  lemma QuestionOnlyIsConsistentIff(query: seq<byte>, response: seq<byte>, budget: nat)
    requires IsQuery(query) && RepeatsQuestion(query, response)
    requires QueryOf(query).questionEnd <= budget < |response| && Survivors(response, budget) == 0
    ensures Consistent(Cut(response, QueryOf(query).questionEnd, [0, 0, 0])) <==> QdCount(response) == 1
  {
    var e := QueryOf(query).questionEnd;
    var r := Cut(response, e, [0, 0, 0]);
    CutTouchesHeaderOnly(response, e, [0, 0, 0]);
    AgreeFromSlice(query, response, e);
    assert QdCount(r) == QdCount(response);
    LoneQuestion(query, r);
  }

  /** A header and question without records is consistent exactly when it announces one question. */
  lemma LoneQuestion(query: seq<byte>, r: seq<byte>)
    requires IsQuery(query) && |r| == QueryOf(query).questionEnd
    requires Agree(query, r, 12, |r| - 4) && RecordCount(r) == 0
    ensures Consistent(r) <==> QdCount(r) == 1
  {
    QuestionWalks(query, r);
    var n := QdCount(r);
    if n >= 1 {
      assert RecordsStart(r) == QuestionsEnd(r, |r|, n - 1);
      if n >= 2 {
        assert !HasName(r, |r|, true) by {
          forall hops: nat ensures !ReachesRoot(r, |r|, true, hops) {}
        }
      }
    }
  }

  /** Cutting twice: the second cut finds that the message fits exactly when the first kept
      the question, which it does whenever the response repeats it. */
  lemma SecondCutFits(query: seq<byte>, response: seq<byte>, budget: nat)
    requires VerdictOf(query, response, budget) == Truncated
    ensures var e := QueryOf(query).questionEnd;
            var k, keep := Survivors(response, budget), KeptLength(response, e, budget);
            && keep <= |response| && (forall s :: 0 <= s < 3 ==> Shares(Counts(response), k)[s] < 65536)
            && var r := Cut(response, keep, Shares(Counts(response), k));
               && (VerdictOf(query, r, budget) == Fits <==> e <= keep)
               && (RepeatsQuestion(query, response) ==> VerdictOf(query, r, budget) == Fits)
  {
    var e := QueryOf(query).questionEnd;
    var k, keep := Survivors(response, budget), KeptLength(response, e, budget);
    WalksLeave(response, e, budget);
    if RepeatsQuestion(query, response) { QuestionIsKept(query, response, budget); }
  }
}
