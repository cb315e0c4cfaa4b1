/** Where section 4.1.4 of RFC 1035 puts the ends of questions and records, and when the walker
    (src/dns/message.cpp:72-120, 192-223) finds them there. */
module WireBoundaries {
  import opened Bytes
  import opened NameWalk
  import opened Records

  /** Labels followed by a pointer: the names whose end is reported short. */
  predicate IsMixed(dns: seq<byte>, pos: nat) {
    EndsInPointer(dns, pos) && HopAt(dns, pos, true).Label?
  }

  ghost function WireQuestionEnd(dns: seq<byte>, off: nat): Option<nat> {
    if HasName(dns, off, true) && WireEnd(dns, off) + 4 <= |dns| then Some(WireEnd(dns, off) + 4) else None
  }

  ghost function WireQuestionsEnd(dns: seq<byte>, off: nat, n: nat): Option<nat>
    decreases n
  {
    if n == 0 then Some(off)
    else match WireQuestionEnd(dns, off)
      case None => None
      case Some(e) => WireQuestionsEnd(dns, e, n - 1)
  }

  ghost function WireRecordEnd(dns: seq<byte>, off: nat): Option<nat> {
    var n := WireEnd(dns, off);
    if !HasName(dns, off, true) || n + 10 > |dns| || n + 10 + Read16(dns, n + 8) > |dns| then None
    else Some(n + 10 + Read16(dns, n + 8))
  }

  ghost function WireEnds(dns: seq<byte>, off: nat, n: nat): seq<nat>
    decreases n
  {
    if n == 0 then []
    else match WireRecordEnd(dns, off)
      case None => []
      case Some(e) => [e] + WireEnds(dns, e, n - 1)
  }

  /** The record ends of the message by the standard. */
  ghost function WireRecordEnds(dns: seq<byte>): seq<nat> {
    if |dns| < 12 || WireQuestionsEnd(dns, 12, QdCount(dns)).None? then []
    else WireEnds(dns, WireQuestionsEnd(dns, 12, QdCount(dns)).value, RecordCount(dns))
  }

  /** A question the walker can walk ends where the standard says exactly if its name is not mixed. */
  lemma QuestionOnWireIff(dns: seq<byte>, off: nat)
    requires QuestionEnd(dns, off).Some?
    ensures WireQuestionEnd(dns, off) == QuestionEnd(dns, off) <==> !IsMixed(dns, off)
  {
    ReportedEndIsWireEnd(dns, off);
  }

  /** A record's fixed fields are read where the standard puts them exactly if its name is not mixed. */
  lemma FieldsOnWireIff(dns: seq<byte>, off: nat)
    ensures ReportedEnd(dns, off) == WireEnd(dns, off) <==> !IsMixed(dns, off)
    ensures !IsMixed(dns, off) ==> RecordEnd(dns, off) == WireRecordEnd(dns, off)
  {
    ReportedEndIsWireEnd(dns, off);
  }

  ghost predicate NoMixedQuestions(dns: seq<byte>, off: nat, n: nat)
    decreases n
  {
    n == 0 || (!IsMixed(dns, off) && (QuestionEnd(dns, off).Some? ==>
                                      NoMixedQuestions(dns, QuestionEnd(dns, off).value, n - 1)))
  }

  ghost predicate NoMixedRecords(dns: seq<byte>, off: nat, n: nat)
    decreases n
  {
    n == 0 || (!IsMixed(dns, off) && (RecordEnd(dns, off).Some? ==>
                                      NoMixedRecords(dns, RecordEnd(dns, off).value, n - 1)))
  }

  lemma {:induction false} QuestionsOnWire(dns: seq<byte>, off: nat, n: nat)
    requires NoMixedQuestions(dns, off, n)
    ensures QuestionsEnd(dns, off, n) == WireQuestionsEnd(dns, off, n)
    decreases n
  {
    if n > 0 {
      ReportedEndIsWireEnd(dns, off);
      if QuestionEnd(dns, off).Some? { QuestionsOnWire(dns, QuestionEnd(dns, off).value, n - 1); }
    }
  }

  lemma {:induction false} RecordsOnWire(dns: seq<byte>, off: nat, n: nat)
    requires NoMixedRecords(dns, off, n)
    ensures Ends(dns, off, n) == WireEnds(dns, off, n)
    decreases n
  {
    if n > 0 {
      FieldsOnWireIff(dns, off);
      if RecordEnd(dns, off).Some? { RecordsOnWire(dns, RecordEnd(dns, off).value, n - 1); }
    }
  }

  /** Where no name is mixed, the walker's record boundaries are those of the standard. */
  lemma BoundariesOnWire(dns: seq<byte>)
    requires |dns| >= 12 && NoMixedQuestions(dns, 12, QdCount(dns))
    requires RecordsStart(dns).Some? ==> NoMixedRecords(dns, RecordsStart(dns).value, RecordCount(dns))
    ensures RecordEnds(dns) == WireRecordEnds(dns)
  {
    QuestionsOnWire(dns, 12, QdCount(dns));
    if RecordsStart(dns).Some? { RecordsOnWire(dns, RecordsStart(dns).value, RecordCount(dns)); }
  }

  /** An accepted name that is mixed: its end is reported two bytes short. */
  lemma MixedNameIsAccepted()
    ensures var dns: seq<byte> := [0, 1, 97, 0xC0, 0];
            HasName(dns, 1, true) && IsMixed(dns, 1) && ReportedEnd(dns, 1) == 3 && WireEnd(dns, 1) == 5
  {
    var dns: seq<byte> := [0, 1, 97, 0xC0, 0];
    assert HopAt(dns, 1, true) == Label(3) && HopAt(dns, 3, true) == Pointer(0) && HopAt(dns, 0, true) == Root;
    assert ReachesRoot(dns, 0, true, 0);
    assert ReachesRoot(dns, 3, true, 1);
    assert ReachesRoot(dns, 1, true, 2);
    assert LabelRun(dns, 3) == 3;
  }

  /** With a mixed name a record's end can still come out right by accident, its length being read from
      the TTL: the fields are misread even where the boundary is not. */
  lemma MisreadFieldsCanAgree()
    ensures var dns: seq<byte> := [0, 1, 97, 0xC0, 0, 0, 16, 0, 1, 0, 0, 0, 2, 0, 0];
            && IsMixed(dns, 1) && ReportedEnd(dns, 1) != WireEnd(dns, 1)
            && RecordEnd(dns, 1) == WireRecordEnd(dns, 1) == Some(15)
  {
    var dns: seq<byte> := [0, 1, 97, 0xC0, 0, 0, 16, 0, 1, 0, 0, 0, 2, 0, 0];
    assert HopAt(dns, 1, true) == Label(3) && HopAt(dns, 3, true) == Pointer(0) && HopAt(dns, 0, true) == Root;
    assert ReachesRoot(dns, 0, true, 0);
    assert ReachesRoot(dns, 3, true, 1);
    assert ReachesRoot(dns, 1, true, 2);
    assert LabelRun(dns, 3) == 3;
  }
}
