/** What a walk over the records shows its callback (src/dns/message.cpp:192-223). */
module RecordWalks {
  import opened Bytes
  import opened Records

  // ---- Whether it succeeds --------------------------------------------------------------------

  ghost predicate NeverStops<C(!new)>(fn: (RecordSpan, C) -> (bool, C)) {
    forall span, ctx :: fn(span, ctx).0
  }

  lemma {:induction false} VisitSucceedsIff<C(!new)>(dns: seq<byte>, off: nat, n: nat,
                                                    fn: (RecordSpan, C) -> (bool, C), ctx: C)
    requires NeverStops(fn)
    ensures Visit(dns, off, n, fn, ctx).0 <==> |Ends(dns, off, n)| == n
    decreases n
  {
    if n > 0 && RecordEnd(dns, off).Some? {
      var e := RecordEnd(dns, off).value;
      VisitSucceedsIff(dns, e, n - 1, fn, fn(RecordSpan(off, e - off), ctx).1);
    }
  }

  /** With a callback that never stops it, a walk succeeds exactly if the header is whole and every record
      it announces fits. */
  lemma SucceedsIff<C(!new)>(dns: seq<byte>, fn: (RecordSpan, C) -> (bool, C), ctx: C)
    requires NeverStops(fn)
    ensures VisitAll(dns, fn, ctx).0 <==> WalksThrough(dns)
  {
    if |dns| >= 12 && RecordsStart(dns).Some? {
      VisitSucceedsIff(dns, RecordsStart(dns).value, RecordCount(dns), fn, ctx);
    }
  }

  /** A callback that stops at the first record makes it fail where there is one. */
  lemma StoppedFails<C(!new)>(dns: seq<byte>, fn: (RecordSpan, C) -> (bool, C), ctx: C)
    requires (forall span, c :: !fn(span, c).0) && RecordEnds(dns) != []
    ensures !VisitAll(dns, fn, ctx).0
  {
  }

  // ---- What is shown --------------------------------------------------------------------------

  function Note(span: RecordSpan, spans: seq<RecordSpan>): (bool, seq<RecordSpan>) {
    (true, spans + [span])
  }

  predicate AbutAt(spans: seq<RecordSpan>, off: nat, ends: seq<nat>, i: nat)
    requires i < |spans| == |ends|
  {
    spans[i].offset == (if i == 0 then off else ends[i - 1]) && spans[i].offset + spans[i].length == ends[i]
  }

  /** Each record begins where the one before it ends, and the first right behind the questions. */
  predicate Abut(spans: seq<RecordSpan>, off: nat, ends: seq<nat>) {
    |spans| == |ends| && forall i :: 0 <= i < |spans| ==> AbutAt(spans, off, ends, i)
  }

  lemma AbutThen(off: nat, e: nat, rest: seq<RecordSpan>, ends: seq<nat>)
    requires off <= e && Abut(rest, e, ends)
    ensures Abut([RecordSpan(off, e - off)] + rest, off, [e] + ends)
  {
    var spans, all := [RecordSpan(off, e - off)] + rest, [e] + ends;
    forall i | 0 <= i < |spans| ensures AbutAt(spans, off, all, i) {
      if i > 0 { assert AbutAt(rest, e, ends, i - 1); }
    }
  }

  lemma {:induction false} VisitShows(dns: seq<byte>, off: nat, n: nat, seen: seq<RecordSpan>)
    returns (spans: seq<RecordSpan>)
    ensures Visit(dns, off, n, Note, seen).1 == seen + spans && Abut(spans, off, Ends(dns, off, n))
    decreases n
  {
    if n > 0 && RecordEnd(dns, off).Some? {
      var e := RecordEnd(dns, off).value;
      var span := RecordSpan(off, e - off);
      var rest := VisitShows(dns, e, n - 1, seen + [span]);
      spans := [span] + rest;
      assert seen + [span] + rest == seen + spans;
      AbutThen(off, e, rest, Ends(dns, e, n - 1));
    } else {
      spans := [];
      assert seen + [] == seen;
    }
  }

  /** The walk shows its callback the records one after another, from the end of the questions on. */
  lemma ShowsTheRecords(dns: seq<byte>)
    requires |dns| >= 12 && RecordsStart(dns).Some?
    ensures Abut(VisitAll(dns, Note, []).1, RecordsStart(dns).value, RecordEnds(dns))
  {
    var spans := VisitShows(dns, RecordsStart(dns).value, RecordCount(dns), []);
    assert [] + spans == spans;
  }
}
