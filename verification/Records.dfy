/** Walking the records of a message (WalkRecords in src/dns/message.cpp). */
module Records {
  import opened Bytes
  import opened NameWalk

  datatype RecordSpan = RecordSpan(offset: nat, length: nat)

  /** The end of the question that starts at `off`, if one can be walked there. */
  ghost function QuestionEnd(dns: seq<byte>, off: nat): Option<nat> {
    if HasName(dns, off, true) && ReportedEnd(dns, off) + 4 <= |dns|
    then Some(ReportedEnd(dns, off) + 4) else None
  }

  /** The end of `n` questions in a row. */
  ghost function QuestionsEnd(dns: seq<byte>, off: nat, n: nat): Option<nat>
    decreases n
  {
    if n == 0 then Some(off)
    else match QuestionEnd(dns, off)
      case None => None
      case Some(e) => QuestionsEnd(dns, e, n - 1)
  }

  /** The end of the record that starts at `off`: a name, ten fixed bytes and RDLENGTH more. */
  ghost function RecordEnd(dns: seq<byte>, off: nat): (e: Option<nat>)
    ensures e.Some? ==> off + 11 <= e.value <= |dns|
  {
    if !HasName(dns, off, true) then None
    else
      NameIsPositive(dns, off);
      var n := ReportedEnd(dns, off);
      if n + 10 > |dns| then None
      else
        var e := n + 10 + Read16(dns, n + 8);
        if e > |dns| then None else Some(e)
  }

  lemma NameIsPositive(dns: seq<byte>, off: nat)
    ensures off < ReportedEnd(dns, off)
  {
  }

  /** The ends of the records from `off` on, at most `n` of them, up to the first that
      cannot be walked. */
  ghost function Ends(dns: seq<byte>, off: nat, n: nat): (ends: seq<nat>)
    ensures |ends| <= n
    decreases n
  {
    if n == 0 then []
    else match RecordEnd(dns, off)
      case None => []
      case Some(e) => [e] + Ends(dns, e, n - 1)
  }

  function QdCount(dns: seq<byte>): nat requires |dns| >= 12 { Read16(dns, 4) }
  function AnCount(dns: seq<byte>): nat requires |dns| >= 12 { Read16(dns, 6) }
  function NsCount(dns: seq<byte>): nat requires |dns| >= 12 { Read16(dns, 8) }
  function ArCount(dns: seq<byte>): nat requires |dns| >= 12 { Read16(dns, 10) }

  function RecordCount(dns: seq<byte>): nat
    requires |dns| >= 12
  {
    AnCount(dns) + NsCount(dns) + ArCount(dns)
  }

  /** Where the records start: behind all the questions the header announces. */
  ghost function RecordsStart(dns: seq<byte>): Option<nat>
    requires |dns| >= 12
  {
    QuestionsEnd(dns, 12, QdCount(dns))
  }

  /** The ends of all the records a walk over the message passes. */
  ghost function RecordEnds(dns: seq<byte>): seq<nat> {
    if |dns| < 12 || RecordsStart(dns).None? then []
    else Ends(dns, RecordsStart(dns).value, RecordCount(dns))
  }

  /** The walk passes every record the header announces. */
  ghost predicate WalksThrough(dns: seq<byte>) {
    |dns| >= 12 && RecordsStart(dns).Some? && |RecordEnds(dns)| == RecordCount(dns)
  }

  /** Where a complete walk stops. */
  ghost function WalkEnd(dns: seq<byte>): nat
    requires WalksThrough(dns)
  {
    if RecordEnds(dns) == [] then RecordsStart(dns).value else RecordEnds(dns)[|RecordEnds(dns)| - 1]
  }

  /** A message that is exactly its announced questions and records. */
  ghost predicate Consistent(dns: seq<byte>) {
    WalksThrough(dns) && WalkEnd(dns) == |dns|
  }

  /** What a callback that looks at one record after another is left with, and whether the
      walk reached the end: the callback can stop it, and so can a record that does not fit. */
  ghost function Visit<C>(dns: seq<byte>, off: nat, n: nat, fn: (RecordSpan, C) -> (bool, C), ctx: C): (bool, C)
    decreases n
  {
    if n == 0 then (true, ctx)
    else match RecordEnd(dns, off)
      case None => (false, ctx)
      case Some(e) =>
        var (go, ctx') := fn(RecordSpan(off, e - off), ctx);
        if go then Visit(dns, e, n - 1, fn, ctx') else (false, ctx')
  }

  ghost function VisitAll<C>(dns: seq<byte>, fn: (RecordSpan, C) -> (bool, C), ctx: C): (bool, C) {
    if |dns| < 12 || RecordsStart(dns).None? then (false, ctx)
    else Visit(dns, RecordsStart(dns).value, RecordCount(dns), fn, ctx)
  }

  method SkipName(dns: seq<byte>, start: nat) returns (ok: bool, off: nat)
    ensures ok <==> HasName(dns, start, true)
    ensures ok ==> off == ReportedEnd(dns, start)
  {
    var unused;
    ok, off, unused := WalkName(dns, start, true, None);
  }

  /** Call `fn` on every whole record in order, threading its context. */
  method WalkRecords<C>(dns: seq<byte>, fn: (RecordSpan, C) -> (bool, C), ctx: C) returns (ok: bool, ctx': C)
    ensures (ok, ctx') == VisitAll(dns, fn, ctx)
  {
    ctx' := ctx;
    if |dns| < 12 { return false, ctx'; }
    var counts := [Read16(dns, 6), Read16(dns, 8), Read16(dns, 10)];

    var off: nat := 12;
    var walked;
    for i := 0 to Read16(dns, 4)
      invariant RecordsStart(dns) == QuestionsEnd(dns, off, QdCount(dns) - i)
    {
      walked, off := SkipName(dns, off);
      if !walked { return false, ctx'; }
      if off + 4 > |dns| { return false, ctx'; }
      off := off + 4;
    }

    ghost var left := RecordCount(dns);
    for section := 0 to 3
      invariant left == (if section == 0 then counts[0] else 0) + (if section <= 1 then counts[1] else 0) +
                (if section <= 2 then counts[2] else 0)
      invariant VisitAll(dns, fn, ctx) == Visit(dns, off, left, fn, ctx')
    {
      ghost var rest := left - counts[section];
      for i := 0 to counts[section]
        invariant left == counts[section] - i + rest
        invariant VisitAll(dns, fn, ctx) == Visit(dns, off, left, fn, ctx')
      {
        var offset := off;
        walked, off := SkipName(dns, off);
        if !walked { return false, ctx'; }
        if off + 10 > |dns| { return false, ctx'; }
        var rdlength := Read16(dns, off + 8);
        off := off + 10;
        if off + rdlength > |dns| { return false, ctx'; }
        off := off + rdlength;
        assert RecordEnd(dns, offset) == Some(off);
        var (go, next) := fn(RecordSpan(offset, off - offset), ctx');
        ctx' := next;
        if !go { return false, ctx'; }
        left := left - 1;
      }
    }
    ok := true;
  }
}
