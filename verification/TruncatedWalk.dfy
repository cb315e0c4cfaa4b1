/** Exactly when a truncated response walks to its own end (src/dns/message.cpp:192-223, 314-371):
    when no surviving name leads behind the cut. */
module TruncatedWalk {
  import opened Bytes
  import opened NameWalk
  import opened NameCodec
  import opened Records
  import opened UdpBudget
  import opened Truncation

  // ---- Names clear of the header --------------------------------------------------------------

  /** The walk of the name at `pos` never looks into the header, where truncation changes bytes. */
  ghost predicate StaysAbove(dns: seq<byte>, pos: nat, hops: nat)
    requires ReachesRoot(dns, pos, true, hops)
    decreases hops
  {
    12 <= pos &&
    match HopAt(dns, pos, true)
    case Root => true
    case Label(next) => StaysAbove(dns, next, hops - 1)
    case Pointer(target) => StaysAbove(dns, target, hops - 1)
  }

  ghost predicate IsClear(dns: seq<byte>, pos: nat) {
    exists hops: nat :: ReachesRoot(dns, pos, true, hops) && StaysAbove(dns, pos, hops)
  }

  ghost predicate QuestionsClear(dns: seq<byte>, off: nat, n: nat)
    decreases n
  {
    n == 0 || (IsClear(dns, off) && QuestionEnd(dns, off).Some? &&
               QuestionsClear(dns, QuestionEnd(dns, off).value, n - 1))
  }

  ghost predicate RecordsClear(dns: seq<byte>, off: nat, n: nat)
    decreases n
  {
    n == 0 || (IsClear(dns, off) && RecordEnd(dns, off).Some? && RecordsClear(dns, RecordEnd(dns, off).value, n - 1))
  }

  /** The questions and the surviving records have names clear of the header. */
  ghost predicate SurvivorsClear(response: seq<byte>, budget: nat)
    requires |response| >= 12
  {
    && RecordsStart(response).Some?
    && QuestionsClear(response, 12, QdCount(response))
    && RecordsClear(response, RecordsStart(response).value, Survivors(response, budget))
  }

  // ---- One name -------------------------------------------------------------------------------

  /** A name of the whole is a name of the part up to its end exactly if it stays inside it. */
  lemma {:induction false} NameSurvivesIff(dns: seq<byte>, part: seq<byte>, pos: nat, hops: nat)
    requires ReachesRoot(dns, pos, true, hops) && StaysAbove(dns, pos, hops) && Agree(dns, part, 12, |part|)
    ensures ReachesRoot(part, pos, true, hops) <==> StaysInside(dns, pos, |part|, hops)
    ensures forall h: nat :: ReachesRoot(part, pos, true, h) ==> h == hops
    decreases hops
  {
    if hops > 0 && pos < |part| {
      var hop := HopAt(dns, pos, true);
      NameSurvivesIff(dns, part, if hop.Label? then hop.next else hop.target, hops - 1);
    }
  }

  lemma NameInsideIff(dns: seq<byte>, part: seq<byte>, pos: nat)
    requires IsClear(dns, pos) && Agree(dns, part, 12, |part|)
    ensures HasName(part, pos, true) <==> NameInside(dns, pos, |part|)
    ensures HasName(dns, pos, true)
    ensures NameInside(dns, pos, |part|) ==> ReportedEnd(part, pos) == ReportedEnd(dns, pos) && 12 <= pos
  {
    var hops: nat :| ReachesRoot(dns, pos, true, hops) && StaysAbove(dns, pos, hops);
    NameSurvivesIff(dns, part, pos, hops);
    if NameInside(dns, pos, |part|) {
      var h: nat :| ReachesRoot(dns, pos, true, h) && StaysInside(dns, pos, |part|, h);
      DistanceUnique(dns, pos, true, h, hops);
      NameCarriesOver(dns, part, pos, |part|);
    }
  }

  // ---- Questions and records ------------------------------------------------------------------

  lemma {:induction false} QuestionsInsideIff(dns: seq<byte>, part: seq<byte>, off: nat, n: nat)
    requires QuestionsClear(dns, off, n) && Agree(dns, part, 12, |part|)
    ensures QuestionsEnd(part, off, n).Some? <==> QuestionsInside(dns, off, n, |part|)
    ensures QuestionsInside(dns, off, n, |part|) ==> QuestionsEnd(part, off, n) == QuestionsEnd(dns, off, n)
    decreases n
  {
    if n > 0 {
      NameInsideIff(dns, part, off);
      QuestionsInsideIff(dns, part, QuestionEnd(dns, off).value, n - 1);
    }
  }

  lemma RecordInsideIff(dns: seq<byte>, part: seq<byte>, off: nat)
    requires IsClear(dns, off) && RecordEnd(dns, off).Some? && Agree(dns, part, 12, |part|)
    ensures RecordEnd(part, off).Some? && RecordEnd(part, off) == RecordEnd(dns, off) <==>
              NameInside(dns, off, |part|) && RecordEnd(dns, off).value <= |part|
    ensures NameInside(dns, off, |part|) ==>
              RecordEnd(part, off) == if RecordEnd(dns, off).value <= |part| then RecordEnd(dns, off) else None
    ensures !NameInside(dns, off, |part|) ==> RecordEnd(part, off).None?
  {
    NameInsideIff(dns, part, off);
    NameIsPositive(dns, off);
  }

  lemma {:induction false} RecordsInsideIff(dns: seq<byte>, part: seq<byte>, off: nat, n: nat)
    requires RecordsClear(dns, off, n) && Agree(dns, part, 12, |part|)
    ensures |Ends(part, off, n)| == n <==> RecordsInside(dns, off, n, |part|)
    decreases n
  {
    if n > 0 {
      RecordInsideIff(dns, part, off);
      RecordsInsideIff(dns, part, RecordEnd(dns, off).value, n - 1);
    }
  }

  // ---- The whole cut --------------------------------------------------------------------------

  /** Truncated, and with records left: what `Cut` is given and gives. */
  lemma CutShape(response: seq<byte>, questionEnd: nat, budget: nat)
    requires |response| >= 12 && 12 <= questionEnd <= budget < |response| && Survivors(response, budget) > 0
    ensures var k, keep := Survivors(response, budget), KeptLength(response, questionEnd, budget);
            && 12 <= keep <= |response| && (forall s :: 0 <= s < 3 ==> Shares(Counts(response), k)[s] < 65536)
            && var r := Cut(response, keep, Shares(Counts(response), k));
               |r| == keep && Agree(response, r, 12, keep) && QdCount(r) == QdCount(response) && RecordCount(r) == k
  {
    SurvivorFacts(response, budget);
    SharesFit(response, Survivors(response, budget));
    CutTouchesHeaderOnly(response, KeptLength(response, questionEnd, budget),
                         Shares(Counts(response), Survivors(response, budget)));
  }

  /** For names clear of the header, a truncated response with records left is exactly what it
      announces if and only if its names stay inside it. */
  lemma CutIsConsistentIff(response: seq<byte>, questionEnd: nat, budget: nat)
    requires |response| >= 12 && 12 <= questionEnd <= budget < |response|
    requires Survivors(response, budget) > 0 && SurvivorsClear(response, budget)
    ensures var k, keep := Survivors(response, budget), KeptLength(response, questionEnd, budget);
            && 12 <= keep <= |response| && (forall s :: 0 <= s < 3 ==> Shares(Counts(response), k)[s] < 65536)
            && (Consistent(Cut(response, keep, Shares(Counts(response), k))) <==>
                SurvivorsSelfContained(response, questionEnd, budget))
  {
    CutShape(response, questionEnd, budget);
    var k, keep := Survivors(response, budget), KeptLength(response, questionEnd, budget);
    var r := Cut(response, keep, Shares(Counts(response), k));
    if SurvivorsSelfContained(response, questionEnd, budget) {
      TruncatedWalksThrough(response, questionEnd, budget);
    }
    QuestionsInsideIff(response, r, 12, QdCount(response));
    RecordsInsideIff(response, r, RecordsStart(response).value, k);
  }

  // ---- The usual names ------------------------------------------------------------------------

  /** The name at `pos` is labels, or a pointer to a name that is labels and ends before `hi`. */
  ghost predicate IsUsual(dns: seq<byte>, pos: nat, hi: nat) {
    || HasName(dns, pos, false)
    || (HopAt(dns, pos, true).Pointer? &&
        var target := HopAt(dns, pos, true).target;
        12 <= target && HasName(dns, target, false) && LabelRun(dns, target) < hi)
  }

  ghost predicate RecordsUsual(dns: seq<byte>, off: nat, n: nat, hi: nat)
    decreases n
  {
    n == 0 || (IsUsual(dns, off, hi) && RecordEnd(dns, off).Some? &&
               RecordsUsual(dns, RecordEnd(dns, off).value, n - 1, hi))
  }

  lemma UsualNameInside(dns: seq<byte>, pos: nat, hi: nat)
    requires 12 <= pos && IsUsual(dns, pos, hi) && RecordEnd(dns, pos).Some? && RecordEnd(dns, pos).value <= hi
    ensures NameInside(dns, pos, hi)
  {
    NameIsPositive(dns, pos);
    if HasName(dns, pos, false) {
      var hops: nat :| ReachesRoot(dns, pos, false, hops);
      LabelRunInside(dns, pos, hops);
      PlainNameInside(dns, pos, hi, hops);
    } else {
      PointerNameInside(dns, pos, HopAt(dns, pos, true).target, hi);
    }
  }

  /** `n` records end by `hi`. */
  ghost predicate EndBy(dns: seq<byte>, off: nat, n: nat, hi: nat)
    decreases n
  {
    n == 0 || (RecordEnd(dns, off).Some? && RecordEnd(dns, off).value <= hi &&
               EndBy(dns, RecordEnd(dns, off).value, n - 1, hi))
  }

  lemma {:induction false} EndsEndBy(dns: seq<byte>, off: nat, n: nat, m: nat, hi: nat)
    requires n <= |Ends(dns, off, m)| && forall i :: 0 <= i < n ==> Ends(dns, off, m)[i] <= hi
    ensures EndBy(dns, off, n, hi)
    decreases n
  {
    if n > 0 {
      var next := RecordEnd(dns, off).value;
      var ends, rest := Ends(dns, off, m), Ends(dns, next, m - 1);
      assert ends == [next] + rest && ends[0] <= hi;
      forall i | 0 <= i < n - 1 ensures rest[i] <= hi { assert rest[i] == ends[i + 1]; }
      EndsEndBy(dns, next, n - 1, m - 1, hi);
    }
  }

  lemma {:induction false} UsualRecordsInside(dns: seq<byte>, off: nat, n: nat, hi: nat)
    requires 12 <= off && RecordsUsual(dns, off, n, hi) && EndBy(dns, off, n, hi)
    ensures RecordsInside(dns, off, n, hi)
    decreases n
  {
    if n > 0 {
      UsualNameInside(dns, off, hi);
      UsualRecordsInside(dns, RecordEnd(dns, off).value, n - 1, hi);
    }
  }

  /** The repeated question is inside whatever is kept. */
  lemma OneQuestionInside(query: seq<byte>, response: seq<byte>, hi: nat)
    requires IsQuery(query) && RepeatsQuestion(query, response) && QdCount(response) == 1
    requires QueryOf(query).questionEnd <= hi <= |response|
    ensures QuestionsInside(response, 12, 1, hi) && RecordsStart(response) == Some(QueryOf(query).questionEnd)
  {
    var e := QueryOf(query).questionEnd;
    AgreeFromSlice(query, response, e);
    QuestionWalks(query, response);
    var hops: nat :| ReachesRoot(query, 12, false, hops);
    LabelRunInside(query, 12, hops);
    PlainNameRepeats(query, response, 12, hops);
    PlainRepeatsPlain(query, response, 12, hops);
    PlainNameInside(response, 12, hi, hops);
    assert RecordsStart(response) == QuestionsEnd(response, e, 0);
    assert QuestionsInside(response, e, 0, hi);
  }

  lemma {:induction false} PlainRepeatsPlain(query: seq<byte>, dns: seq<byte>, pos: nat, hops: nat)
    requires ReachesRoot(query, pos, false, hops) && Agree(query, dns, pos, LabelRun(query, pos) + 1)
    ensures ReachesRoot(dns, pos, false, hops)
    decreases hops
  {
    if hops > 0 {
      var next := HopAt(query, pos, false).next;
      LabelRunInside(query, next, hops - 1);
      PlainRepeatsPlain(query, dns, next, hops - 1);
    }
  }

  lemma UsualIsSelfContained(query: seq<byte>, response: seq<byte>, budget: nat)
    requires IsQuery(query) && RepeatsQuestion(query, response) && |response| >= 12 && QdCount(response) == 1
    requires Survivors(response, budget) > 0
    requires RecordsUsual(response, QueryOf(query).questionEnd, Survivors(response, budget),
                          KeptLength(response, QueryOf(query).questionEnd, budget))
    ensures SurvivorsSelfContained(response, QueryOf(query).questionEnd, budget)
  {
    var e, k := QueryOf(query).questionEnd, Survivors(response, budget);
    var keep := KeptLength(response, e, budget);
    QuestionIsKept(query, response, budget);
    SurvivorFacts(response, budget);
    OneQuestionInside(query, response, keep);
    EndsEndBy(response, e, k, RecordCount(response), keep);
    UsualRecordsInside(response, e, k, keep);
  }

  /** The answers servers send, one question repeated and names that are labels or point at such a
      name in the part kept, are exactly what they announce however they are truncated. */
  lemma UsualAnswersStayConsistent(query: seq<byte>, response: seq<byte>, budget: nat)
    requires VerdictOf(query, response, budget) == Truncated && RepeatsQuestion(query, response)
    requires QdCount(response) == 1 && Survivors(response, budget) > 0
    requires RecordsUsual(response, QueryOf(query).questionEnd, Survivors(response, budget),
                          KeptLength(response, QueryOf(query).questionEnd, budget))
    ensures var k, keep := Survivors(response, budget), KeptLength(response, QueryOf(query).questionEnd, budget);
            && 12 <= keep <= |response| && (forall s :: 0 <= s < 3 ==> Shares(Counts(response), k)[s] < 65536)
            && Consistent(Cut(response, keep, Shares(Counts(response), k)))
  {
    UsualIsSelfContained(query, response, budget);
    TruncatedWalksThrough(response, QueryOf(query).questionEnd, budget);
  }

  // ---- A name that leads behind the cut -------------------------------------------------------

  /** A query for the TXT records of "a". */
  function TxtQuery(): seq<byte> {
    seq(19, i requires 0 <= i < 19 =>
      if i == 5 then 1 else if i == 12 then 1 else if i == 13 then 97 else if i == 16 then 16 else if i == 18 then 1
        else 0)
  }

  /** A response of 600 bytes to it. The first record is named by a pointer to byte 16, the low byte of
      the question's type, which reads as a label of 16 bytes running on into the second record. */
  function EntangledByte(i: nat): byte {
    if i == 2 then 0x80 else if i == 5 then 1 else if i == 7 then 2
    else if i == 12 then 1 else if i == 13 then 97 else if i == 16 then 16 else if i == 18 then 1
    else if i == 19 then 0xC0 else if i == 20 then 16 else if i == 22 then 16 else if i == 24 then 1
    else if i == 32 then 1 else if i == 35 then 1 else if i == 40 then 2 else if i == 41 then 46
    else 0
  }

  function Entangled(): (r: seq<byte>)
    ensures |r| == 600 && forall i :: 0 <= i < 600 ==> r[i] == EntangledByte(i)
  {
    seq(600, i requires 0 <= i < 600 => EntangledByte(i))
  }

  lemma TxtQueryParses()
    ensures IsQuery(TxtQuery()) && QueryOf(TxtQuery()).questionEnd == 19 && RepeatsQuestion(TxtQuery(), Entangled())
  {
    var q := TxtQuery();
    assert HopAt(q, 12, false) == Label(14) && HopAt(q, 14, false) == Root;
    assert ReachesRoot(q, 14, false, 0);
    assert ReachesRoot(q, 12, false, 1);
    NameTextIs(q, 12, false, 1);
    assert TextFrom(q, 12, false, 1, []) == TextFrom(q, 14, false, 0, Dotted([], q[13..14]));
    assert HopAt(q, 12, true) == Label(14) && LabelRun(q, 14) == 14;
    assert ReportedEnd(q, 12) == 15;
  }

  lemma EntangledHops()
    ensures var r := Entangled();
            && HopAt(r, 12, true) == Label(14) && HopAt(r, 14, true) == Root
            && HopAt(r, 19, true) == Pointer(16) && HopAt(r, 16, true) == Label(33) && HopAt(r, 33, true) == Root
            && HopAt(r, 31, true) == Root
    ensures var r := Entangled();
            QdCount(r) == 1 && RecordCount(r) == 2 && Read16(r, 29) == 0 && Read16(r, 40) == 558
  {
    var r := Entangled();
    assert r[12] == 1 && r[14] == 0 && r[19] == 0xC0 && r[20] == 16 && r[16] == 16 && r[33] == 0 && r[31] == 0;
  }

  lemma EntangledNames()
    ensures IsClear(Entangled(), 12) && IsClear(Entangled(), 19) && HasName(Entangled(), 31, true)
  {
    var r := Entangled();
    EntangledHops();
    assert ReachesRoot(r, 14, true, 0) && StaysAbove(r, 14, 0);
    assert ReachesRoot(r, 12, true, 1) && StaysAbove(r, 12, 1);
    assert ReachesRoot(r, 33, true, 0) && StaysAbove(r, 33, 0);
    assert ReachesRoot(r, 16, true, 1) && StaysAbove(r, 16, 1);
    assert ReachesRoot(r, 19, true, 2) && StaysAbove(r, 19, 2);
    assert ReachesRoot(r, 31, true, 0);
  }

  lemma EntangledRecords()
    ensures RecordsStart(Entangled()) == Some(19) && RecordEnds(Entangled()) == [31, 600]
    ensures QuestionEnd(Entangled(), 12) == Some(19) && RecordEnd(Entangled(), 19) == Some(31)
  {
    var r := Entangled();
    EntangledHops();
    EntangledNames();
    assert LabelRun(r, 14) == 14 && ReportedEnd(r, 12) == 15;
    assert QuestionEnd(r, 12) == Some(19);
    assert RecordsStart(r) == QuestionsEnd(r, 19, 0);
    assert ReportedEnd(r, 19) == 21 && RecordEnd(r, 19) == Some(31);
    assert ReportedEnd(r, 31) == 32 && RecordEnd(r, 31) == Some(600);
    assert Ends(r, 31, 1) == [600] + Ends(r, 600, 0);
    assert Ends(r, 19, 2) == [31] + Ends(r, 31, 1);
  }

  lemma EntangledNameLeads()
    ensures !NameInside(Entangled(), 19, 31)
  {
    var r := Entangled();
    EntangledHops();
    forall hops: nat | ReachesRoot(r, 19, true, hops) ensures !StaysInside(r, 19, 31, hops) {
      assert hops >= 2 && ReachesRoot(r, 16, true, hops - 1);
      assert !StaysInside(r, 16, 31, hops - 1);
    }
  }

  lemma EntangledCut()
    ensures Survivors(Entangled(), 512) == 1 && KeptLength(Entangled(), 19, 512) == 31
    ensures SurvivorsClear(Entangled(), 512) && !SurvivorsSelfContained(Entangled(), 19, 512)
  {
    var r := Entangled();
    EntangledNames();
    EntangledRecords();
    EntangledNameLeads();
    assert [31, 600][1..] == [600];
    assert Fitting([600], 512) == 0;
    EntangledHops();
    assert QuestionsClear(r, 19, 0) && RecordsClear(r, 31, 0);
    assert !RecordsInside(r, 19, 1, 31);
  }

  /** Truncation can break a response: this one repeats the question, is cut to its first record at 512
      bytes, and the result is not what it announces, for the record's name is gone. */
  lemma TruncationCanBreakNames()
    ensures VerdictOf(TxtQuery(), Entangled(), 512) == Truncated && RepeatsQuestion(TxtQuery(), Entangled())
    ensures Consistent(Entangled()) && KeptLength(Entangled(), 19, 512) == 31
    ensures (forall s :: 0 <= s < 3 ==> Shares(Counts(Entangled()), 1)[s] < 65536)
    ensures !Consistent(Cut(Entangled(), 31, Shares(Counts(Entangled()), 1)))
  {
    TxtQueryParses();
    EntangledHops();
    EntangledRecords();
    EntangledCut();
    CutIsConsistentIff(Entangled(), 19, 512);
  }
}
