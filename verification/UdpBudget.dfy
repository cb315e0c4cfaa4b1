/** Cutting a response down to a datagram (ApplyUdpBudget in src/dns/message.cpp). */
module UdpBudget {
  import opened Bytes
  import opened NameCodec
  import opened Records

  datatype Verdict = Fits | Truncated | CannotFit

  /** The one response vector the program edits in place. */
  class Message {
    var bytes: seq<byte>

    constructor (bytes: seq<byte>)
      ensures this.bytes == bytes
    {
      this.bytes := bytes;
    }

    method Put16At(at: nat, v: nat)
      requires at + 2 <= |bytes| && v < 65536
      modifies this
      ensures bytes == old(bytes)[at := (v / 256) as byte][at + 1 := (v % 256) as byte]
    {
      bytes := bytes[at := (v / 256) as byte];
      bytes := bytes[at + 1 := (v % 256) as byte];
    }

    /** Rewrite the three section counts, set TC, and drop everything from `keep` on. */
    method CutTo(keep: nat, shares: seq<nat>)
      requires 12 <= keep <= |bytes| && |shares| == 3 && forall s :: 0 <= s < 3 ==> shares[s] < 65536
      modifies this
      ensures bytes == Cut(old(bytes), keep, shares)
    {
      Put16At(6, shares[0]);
      Put16At(8, shares[1]);
      Put16At(10, shares[2]);
      bytes := bytes[2 := WithTc(bytes[2])];
      bytes := bytes[..keep];
    }
  }

  // ---- The two walks -----------------------------------------------------------------

  datatype BudgetWalk = BudgetWalk(limit: nat, lastGood: nat)

  function KeepIfFits(span: RecordSpan, walk: BudgetWalk): (bool, BudgetWalk) {
    if span.offset + span.length > walk.limit then (false, walk)
    else (true, walk.(lastGood := span.offset + span.length))
  }

  /** The section of the record with `index` records before it. */
  function SectionOf(declared: seq<nat>, index: nat): (section: nat)
    requires |declared| == 3
    ensures section < 3
  {
    if index < declared[0] then 0
    else if index - declared[0] < declared[1] then 1
    else 2
  }

  datatype SurvivorTally = SurvivorTally(limit: nat, declared: seq<nat>, index: nat, kept: seq<nat>)

  function TallyIfInside(span: RecordSpan, tally: SurvivorTally): (bool, SurvivorTally) {
    if span.offset + span.length > tally.limit || |tally.declared| != 3 || |tally.kept| != 3 then (false, tally)
    else
      var section := SectionOf(tally.declared, tally.index);
      (true, tally.(kept := tally.kept[section := tally.kept[section] + 1], index := tally.index + 1))
  }

  /** How many of the records lie within `limit`, counted from the front. */
  function Fitting(ends: seq<nat>, limit: nat): (k: nat)
    ensures k <= |ends|
  {
    if ends == [] || ends[0] > limit then 0 else 1 + Fitting(ends[1..], limit)
  }

  function Min(a: nat, b: nat): nat { if a < b then a else b }

  /** How the first `k` records are shared out over the three sections. */
  function Shares(declared: seq<nat>, k: nat): (shares: seq<nat>)
    requires |declared| == 3
    ensures |shares| == 3 && shares[0] + shares[1] + shares[2] == k
  {
    var first, second := Min(k, declared[0]), Min(k, declared[0] + declared[1]);
    [first, second - first, k - second]
  }

  lemma {:induction false} EndsIncrease(dns: seq<byte>, off: nat, n: nat)
    ensures forall i :: 0 <= i < |Ends(dns, off, n)| ==> off + 11 <= Ends(dns, off, n)[i] <= |dns|
    ensures forall i, j :: 0 <= i < j < |Ends(dns, off, n)| ==> Ends(dns, off, n)[i] < Ends(dns, off, n)[j]
    decreases n
  {
    if n > 0 && RecordEnd(dns, off).Some? {
      EndsIncrease(dns, RecordEnd(dns, off).value, n - 1);
    }
  }

  lemma {:induction false} FittingIsPrefix(ends: seq<nat>, limit: nat)
    requires forall i, j :: 0 <= i < j < |ends| ==> ends[i] < ends[j]
    ensures forall i :: 0 <= i < |ends| ==> (i < Fitting(ends, limit) <==> ends[i] <= limit)
  {
    if ends != [] && ends[0] <= limit {
      FittingIsPrefix(ends[1..], limit);
      forall i | 0 <= i < |ends| ensures i < Fitting(ends, limit) <==> ends[i] <= limit {
        if i > 0 { assert ends[1..][i - 1] == ends[i]; }
      }
    } else if ends != [] {
      assert forall i :: 0 <= i < |ends| ==> ends[0] <= ends[i];
    }
  }

  /** What the first walk is left with: the end of the last record that fits. */
  lemma {:induction false} KeepVisit(dns: seq<byte>, off: nat, n: nat, walk: BudgetWalk)
    ensures var ends := Ends(dns, off, n);
            var k := Fitting(ends, walk.limit);
            Visit(dns, off, n, KeepIfFits, walk).1 == walk.(lastGood := if k == 0 then walk.lastGood else ends[k - 1])
    decreases n
  {
    if n > 0 && RecordEnd(dns, off).Some? {
      var e := RecordEnd(dns, off).value;
      assert Ends(dns, off, n)[1..] == Ends(dns, e, n - 1);
      if e <= walk.limit {
        KeepVisit(dns, e, n - 1, walk.(lastGood := e));
      }
    }
  }

  /** One more record inside is one more in its section. */
  lemma OneMoreShared(declared: seq<nat>, index: nat)
    requires |declared| == 3
    ensures var kept, section := Shares(declared, index), SectionOf(declared, index);
            kept[section := kept[section] + 1] == Shares(declared, index + 1)
  {
  }

  function Tallied(tally: SurvivorTally): SurvivorTally
    requires |tally.declared| == 3
  {
    tally.(kept := Shares(tally.declared, tally.index + 1), index := tally.index + 1)
  }

  /** One record of the second walk. */
  lemma TallyOne(dns: seq<byte>, off: nat, n: nat, tally: SurvivorTally)
    requires |tally.declared| == 3 && tally.kept == Shares(tally.declared, tally.index)
    requires n > 0 && RecordEnd(dns, off).Some?
    ensures var e := RecordEnd(dns, off).value;
            Visit(dns, off, n, TallyIfInside, tally) ==
              if e <= tally.limit then Visit(dns, e, n - 1, TallyIfInside, Tallied(tally)) else (false, tally)
  {
    OneMoreShared(tally.declared, tally.index);
  }

  /** What the second walk is left with: the records inside, shared out by section. */
  lemma {:induction false} TallyVisit(dns: seq<byte>, off: nat, n: nat, tally: SurvivorTally)
    requires |tally.declared| == 3 && tally.kept == Shares(tally.declared, tally.index)
    ensures var k := tally.index + Fitting(Ends(dns, off, n), tally.limit);
            Visit(dns, off, n, TallyIfInside, tally).1.kept == Shares(tally.declared, k)
    decreases n
  {
    if n > 0 && RecordEnd(dns, off).Some? {
      var e := RecordEnd(dns, off).value;
      assert Ends(dns, off, n)[1..] == Ends(dns, e, n - 1);
      TallyOne(dns, off, n, tally);
      if e <= tally.limit { TallyVisit(dns, e, n - 1, Tallied(tally)); }
    }
  }

  // ---- What the cut is --------------------------------------------------------------

  function Counts(dns: seq<byte>): (c: seq<nat>)
    requires |dns| >= 12
    ensures |c| == 3
  {
    [AnCount(dns), NsCount(dns), ArCount(dns)]
  }

  /** The records that survive a budget. */
  ghost function Survivors(dns: seq<byte>, budget: nat): (k: nat)
    ensures k <= |RecordEnds(dns)|
    ensures |dns| >= 12 ==> k <= RecordCount(dns)
  {
    Fitting(RecordEnds(dns), budget)
  }

  /** How many bytes are kept: up to the last surviving record, or the query's question. */
  ghost function KeptLength(dns: seq<byte>, questionEnd: nat, budget: nat): nat {
    var k := Survivors(dns, budget);
    if k == 0 then questionEnd else RecordEnds(dns)[k - 1]
  }

  /** The byte with the TC bit (0x02) set. */
  function WithTc(b: byte): byte {
    if b / 2 % 2 == 1 then b else b + 2
  }

  function CutByte(dns: seq<byte>, shares: seq<nat>, i: nat): byte
    requires |shares| == 3 && forall s :: 0 <= s < 3 ==> shares[s] < 65536
    requires i < |dns|
  {
    if i == 2 then WithTc(dns[2])
    else if i == 6 || i == 8 || i == 10 then (shares[i / 2 - 3] / 256) as byte
    else if i == 7 || i == 9 || i == 11 then (shares[i / 2 - 3] % 256) as byte
    else dns[i]
  }

  /** The first `keep` bytes with TC set and the three counts replaced. */
  function Cut(dns: seq<byte>, keep: nat, shares: seq<nat>): (r: seq<byte>)
    requires |shares| == 3 && forall s :: 0 <= s < 3 ==> shares[s] < 65536
    requires keep <= |dns|
    ensures |r| == keep
  {
    seq(keep, i requires 0 <= i < keep => CutByte(dns, shares, i))
  }

  /** Which of the three ways the message is left. */
  ghost function VerdictOf(query: seq<byte>, response: seq<byte>, budget: nat): Verdict {
    if !IsQuery(query) || QueryOf(query).questionEnd > |response| || QueryOf(query).questionEnd > budget then CannotFit
    else if |response| <= budget then Fits
    else if |response| < 12 then CannotFit
    else Truncated
  }

  lemma SurvivorFacts(dns: seq<byte>, budget: nat)
    requires |dns| >= 12
    ensures forall i :: 0 <= i < |RecordEnds(dns)| ==>
              23 <= RecordEnds(dns)[i] <= |dns| && (i < Survivors(dns, budget) <==> RecordEnds(dns)[i] <= budget)
    ensures forall i, j :: 0 <= i < j < |RecordEnds(dns)| ==> RecordEnds(dns)[i] < RecordEnds(dns)[j]
  {
    if RecordsStart(dns).Some? {
      QuestionsGrow(dns, 12, QdCount(dns));
      EndsIncrease(dns, RecordsStart(dns).value, RecordCount(dns));
      FittingIsPrefix(RecordEnds(dns), budget);
    }
  }

  /** No count grows, so none of them is cut off when it is written back as 16 bits. */
  lemma SharesFit(dns: seq<byte>, k: nat)
    requires |dns| >= 12 && k <= RecordCount(dns)
    ensures forall s :: 0 <= s < 3 ==> Shares(Counts(dns), k)[s] <= Counts(dns)[s] < 65536
  {
  }

  lemma {:induction false} QuestionsGrow(dns: seq<byte>, off: nat, n: nat)
    ensures QuestionsEnd(dns, off, n).Some? ==> off <= QuestionsEnd(dns, off, n).value
    decreases n
  {
    if n > 0 && QuestionEnd(dns, off).Some? {
      NameIsPositive(dns, off);
      QuestionsGrow(dns, QuestionEnd(dns, off).value, n - 1);
    }
  }

  /** The second walk, limited to what the first one kept, counts the same records. */
  lemma SecondWalkAgrees(dns: seq<byte>, questionEnd: nat, budget: nat)
    requires |dns| >= 12 && questionEnd <= budget
    ensures Survivors(dns, KeptLength(dns, questionEnd, budget)) == Survivors(dns, budget)
  {
    SurvivorFacts(dns, budget);
    FittingSame(RecordEnds(dns), KeptLength(dns, questionEnd, budget), budget);
  }

  lemma {:induction false} FittingSame(ends: seq<nat>, a: nat, b: nat)
    requires forall i :: 0 <= i < |ends| ==> (ends[i] <= a <==> ends[i] <= b)
    ensures Fitting(ends, a) == Fitting(ends, b)
  {
    if ends != [] { FittingSame(ends[1..], a, b); }
  }

  method ApplyUdpBudget(query: seq<byte>, response: Message, budget: nat) returns (verdict: Verdict)
    modifies response
    ensures verdict == VerdictOf(query, old(response.bytes), budget)
    ensures verdict != Truncated ==> response.bytes == old(response.bytes)
    ensures verdict == Truncated ==>
              var dns := old(response.bytes);
              var keep := KeptLength(dns, QueryOf(query).questionEnd, budget);
              && 12 <= keep <= budget < |dns|
              && response.bytes == Cut(dns, keep, Shares(Counts(dns), Survivors(dns, budget)))
  {
    var blank := Query(0, 0, [], 0, 0, 0);
    var parsed, q := ParseQuery(query, blank);
    if !parsed { return CannotFit; }
    if q.questionEnd > |response.bytes| { return CannotFit; }
    if q.questionEnd > budget { return CannotFit; }
    if |response.bytes| <= budget { return Fits; }
    if |response.bytes| < 12 { return CannotFit; }

    ghost var dns := response.bytes;
    var walk := BudgetWalk(budget, q.questionEnd);
    var whole;
    whole, walk := WalkRecords(response.bytes, KeepIfFits, walk);
    var keep := walk.lastGood;

    var declared := [Read16(response.bytes, 6), Read16(response.bytes, 8), Read16(response.bytes, 10)];
    var tally := SurvivorTally(keep, declared, 0, [0, 0, 0]);
    whole, tally := WalkRecords(response.bytes, TallyIfInside, tally);

    WalksLeave(dns, q.questionEnd, budget);
    response.CutTo(keep, tally.kept);
    verdict := Truncated;
  }

  /** What the two walks leave behind. */
  lemma WalksLeave(dns: seq<byte>, questionEnd: nat, budget: nat)
    requires |dns| >= 12 && 12 <= questionEnd <= budget
    ensures var keep := KeptLength(dns, questionEnd, budget);
            && 12 <= keep <= budget
            && VisitAll(dns, KeepIfFits, BudgetWalk(budget, questionEnd)).1 == BudgetWalk(budget, keep)
            && VisitAll(dns, TallyIfInside, SurvivorTally(keep, Counts(dns), 0, [0, 0, 0])).1.kept
               == Shares(Counts(dns), Survivors(dns, budget))
    ensures forall s :: 0 <= s < 3 ==> Shares(Counts(dns), Survivors(dns, budget))[s] < 65536
  {
    var keep := KeptLength(dns, questionEnd, budget);
    SurvivorFacts(dns, budget);
    SharesFit(dns, Survivors(dns, budget));
    SecondWalkAgrees(dns, questionEnd, budget);
    var tally := SurvivorTally(keep, Counts(dns), 0, [0, 0, 0]);
    assert tally.kept == Shares(tally.declared, 0);
    if RecordsStart(dns).Some? {
      KeepVisit(dns, RecordsStart(dns).value, RecordCount(dns), BudgetWalk(budget, questionEnd));
      TallyVisit(dns, RecordsStart(dns).value, RecordCount(dns), tally);
    }
  }
}
