/** How a response is split into pieces does not matter, and exactly when. */
module HttpSplit {
  import opened Bytes
  import opened HttpText
  import opened HttpCore

  predicate Prefix(b: seq<byte>, more: seq<byte>) {
    |b| <= |more| && b == more[..|b|]
  }

  lemma SameSlice(b: seq<byte>, more: seq<byte>, lo: nat, hi: nat)
    requires Prefix(b, more) && lo <= hi <= |b|
    ensures b[lo..hi] == more[lo..hi]
  {
  }

  /** A step that does not stop inside a body is the same step when more bytes follow. */
  lemma StepInPrefix(b: seq<byte>, more: seq<byte>, c: Core)
    requires Prefix(b, more) && c.offset <= |b|
    requires Step(b, c).Some? && Step(b, c).value != FAILED
    requires c.phase in {FixedBody, ChunkData} ==> c.remaining <= |b| - c.offset
    ensures Step(more, c) == Step(b, c)
    ensures LongLine(more, c) == LongLine(b, c)
  {
    CrlfInPrefix(b, more, c.offset);
    BlankLineInPrefix(b, more, 0);
    match c.phase
    case Headers => SameSlice(b, more, 0, FirstBlankLine(b, 0).value);
    case FixedBody => SameSlice(b, more, c.offset, c.offset + c.remaining);
    case ChunkData => SameSlice(b, more, c.offset, c.offset + c.remaining);
    case ChunkSize => SameSlice(b, more, c.offset, FirstCrlf(b, c.offset).value);
    case Trailers => SameSlice(b, more, c.offset, FirstCrlf(b, c.offset).value);
    case ChunkDataCrlf =>
  }

  /** A step that fails also fails when more bytes follow, unless what it waited for in vain
      was the end of a line, and more bytes bring it. */
  lemma FailureInPrefix(b: seq<byte>, more: seq<byte>, c: Core)
    requires Prefix(b, more) && c.offset <= |b|
    requires Step(b, c) == Some(FAILED)
    ensures Step(more, c) == Some(FAILED) || LongLine(more, c)
  {
    CrlfInPrefix(b, more, c.offset);
    BlankLineInPrefix(b, more, 0);
    match c.phase
    case Headers => if FirstBlankLine(b, 0).Some? { SameSlice(b, more, 0, FirstBlankLine(b, 0).value); }
    case ChunkSize => if FirstCrlf(b, c.offset).Some? { SameSlice(b, more, c.offset, FirstCrlf(b, c.offset).value); }
    case Trailers => if FirstCrlf(b, c.offset).Some? { SameSlice(b, more, c.offset, FirstCrlf(b, c.offset).value); }
    case FixedBody =>
    case ChunkData =>
    case ChunkDataCrlf =>
  }

  /** The second part taken brings the body to where taking it at once does. */
  lemma BodyInTwoSteps(b: seq<byte>, more: seq<byte>, c: Core)
    requires Prefix(b, more) && |b| < |more| && c.offset <= |b| && c.phase in {FixedBody, ChunkData}
    requires Step(b, c).Some? && Step(b, c).value != FAILED && c.remaining > |b| - c.offset
    ensures Step(more, Step(b, c).value) == Step(more, c) && Step(more, c).Some?
    ensures Step(b, c).value.phase == c.phase
  {
    SameSlice(b, more, c.offset, |b|);
    var take := if |more| - c.offset < c.remaining then |more| - c.offset else c.remaining;
    TwoSlices(c.body, more, c.offset, |b|, c.offset + take);
  }

  /** States that step alike run alike. */
  lemma SameStepSameRun(b: seq<byte>, c: Core, d: Core)
    requires c.offset <= |b| && d.offset <= |b| && Step(b, c) == Step(b, d) && Step(b, c).Some?
    requires c.phase == d.phase && c.phase in {FixedBody, ChunkData}
    ensures Run(b, c) == Run(b, d)
    ensures NoLongLine(b, c) ==> NoLongLine(b, d)
  {
  }

  /** A body taken in two parts is the body taken at once. */
  lemma BodyInTwoParts(b: seq<byte>, more: seq<byte>, c: Core)
    requires Prefix(b, more) && c.offset <= |b| && c.phase in {FixedBody, ChunkData}
    requires Step(b, c).Some? && Step(b, c).value != FAILED && c.remaining > |b| - c.offset
    ensures Run(more, Step(b, c).value) == Run(more, c)
    ensures NoLongLine(more, c) ==> NoLongLine(more, Step(b, c).value)
  {
    if |b| == |more| {
      assert b == more;
    } else {
      BodyInTwoSteps(b, more, c);
      SameStepSameRun(more, c, Step(b, c).value);
    }
  }

  lemma TwoSlices(body: seq<byte>, more: seq<byte>, lo: nat, mid: nat, hi: nat)
    requires lo <= mid <= hi <= |more|
    ensures (body + more[lo..mid]) + more[mid..hi] == body + more[lo..hi]
  {
  }

  /** A step taken on a prefix leaves the run on the whole where it was going. */
  lemma StepResumes(b: seq<byte>, more: seq<byte>, c: Core)
    requires Prefix(b, more) && c.offset <= |b| && Step(b, c).Some? && Step(b, c).value != FAILED
    ensures Run(more, Step(b, c).value) == Run(more, c)
    ensures NoLongLine(more, c) ==> NoLongLine(more, Step(b, c).value)
  {
    if c.phase in {FixedBody, ChunkData} && c.remaining > |b| - c.offset {
      BodyInTwoParts(b, more, c);
    } else {
      StepInPrefix(b, more, c);
      assert Run(more, c) == Run(more, Step(b, c).value);
    }
  }

  /** Running on a prefix first and then on all of it is running on all of it at once, unless
      the first run gave up on a long line that the rest would have ended. */
  predicate Resumes(b: seq<byte>, more: seq<byte>, c: Core)
    requires Prefix(b, more) && c.offset <= |b|
  {
    && (Run(more, Run(b, c)) == Run(more, c) || (Run(b, c) == FAILED && !NoLongLine(more, c)))
    && (NoLongLine(more, c) ==> NoLongLine(more, Run(b, c)))
  }

  lemma ResumesAfterFailure(b: seq<byte>, more: seq<byte>, c: Core)
    requires Prefix(b, more) && c.offset <= |b| && Step(b, c) == Some(FAILED)
    ensures Resumes(b, more, c)
  {
    FailureInPrefix(b, more, c);
    assert Run(b, FAILED) == FAILED && Run(more, FAILED) == FAILED;
  }

  lemma ResumesBack(b: seq<byte>, more: seq<byte>, c: Core)
    requires Prefix(b, more) && c.offset <= |b| && Step(b, c).Some? && Step(b, c).value != FAILED
    requires Resumes(b, more, Step(b, c).value)
    ensures Resumes(b, more, c)
  {
    var c1 := Step(b, c).value;
    StepResumes(b, more, c);
    assert Run(b, c) == Run(b, c1);
    if Run(b, c1) == FAILED && NoLongLine(more, c) { assert NoLongLine(more, c1); }
  }

  lemma {:induction false} Resume(b: seq<byte>, more: seq<byte>, c: Core)
    requires Prefix(b, more) && c.offset <= |b|
    ensures Resumes(b, more, c)
    decreases Stage(c.phase), |b| - c.offset, Rank(c.phase)
  {
    if Step(b, c).Some? {
      if Step(b, c).value == FAILED {
        ResumesAfterFailure(b, more, c);
      } else {
        Resume(b, more, Step(b, c).value);
        ResumesBack(b, more, c);
      }
    }
  }

  /** Feeding pieces ends where feeding them joined would, unless it failed on a long line. */
  lemma {:induction false} FeedingPieces(p: Fed, pieces: seq<seq<byte>>)
    requires p.core.offset <= |p.buffer| && Step(p.buffer, p.core).None?
    ensures var all := p.buffer + Concat(pieces);
            var end := FeedAll(p, pieces).core;
            || end == Run(all, p.core)
            || (end == FAILED && !NoLongLine(all, p.core))
    decreases |pieces|
  {
    var all := p.buffer + Concat(pieces);
    if pieces == [] {
      assert all == p.buffer;
    } else if ResultOf(p.core.phase) != NeedMore {
      FinishedStays(p, pieces);
    } else {
      var b := p.buffer + pieces[0];
      var q := FeedOne(p, pieces[0]);
      assert all == b + Concat(pieces[1..]);
      FeedingPieces(q, pieces[1..]);
      Resume(b, all, p.core);
    }
  }

  lemma {:induction false} FinishedStays(p: Fed, pieces: seq<seq<byte>>)
    requires p.core.offset <= |p.buffer| && ResultOf(p.core.phase) != NeedMore
    ensures FeedAll(p, pieces) == p
    decreases |pieces|
  {
    if pieces != [] { FinishedStays(p, pieces[1..]); }
  }

  /** Split independence: bytes whose lines are short enough come to the same end however they
      are split, even into single bytes. */
  lemma SplitDoesNotMatter(pieces: seq<seq<byte>>)
    requires NoLongLine(Concat(pieces), START)
    ensures FeedAll(UNFED, pieces).core == Run(Concat(pieces), START)
  {
    StartWaits();
    FeedingPieces(UNFED, pieces);
    assert UNFED.buffer + Concat(pieces) == Concat(pieces);
  }

  lemma StartWaits()
    ensures Step([], START).None?
  {
  }

  // ---- Exactly when ----------------------------------------------------------------------

  /** However the bytes are split, the caller sees what it would see had they come at once. */
  ghost predicate AllSplitsAgree(b: seq<byte>) {
    forall pieces :: Concat(pieces) == b ==> Outcome(FeedAll(UNFED, pieces).core) == Outcome(Run(b, START))
  }

  lemma {:induction false} FailedIsFailed(b: seq<byte>, c: Core)
    requires c.offset <= |b| && c.phase != Failed
    ensures Run(b, c).phase == Failed ==> Run(b, c) == FAILED
    decreases Stage(c.phase), |b| - c.offset, Rank(c.phase)
  {
    if Step(b, c).Some? && Step(b, c).value != FAILED { FailedIsFailed(b, Step(b, c).value); }
  }

  lemma HeadersStepBack(b: seq<byte>, n: nat, c: Core)
    requires n < |b| && c.offset <= n && c.phase == Headers
    requires Step(b, c).Some? && Step(b, c).value != FAILED && Step(b, c).value.offset <= n
    ensures Step(b[..n], c) == Step(b, c)
  {
    BlankLineInPrefix(b[..n], b, 0);
    SameSlice(b[..n], b, 0, FirstBlankLine(b, 0).value);
  }

  lemma LineStepBack(b: seq<byte>, n: nat, c: Core)
    requires n < |b| && c.offset <= n && (c.phase == ChunkSize || c.phase == Trailers)
    requires Step(b, c).Some? && Step(b, c).value != FAILED && Step(b, c).value.offset <= n
    ensures Step(b[..n], c) == Step(b, c)
  {
    CrlfInPrefix(b[..n], b, c.offset);
    SameSlice(b[..n], b, c.offset, FirstCrlf(b, c.offset).value);
  }

  /** A step looks at nothing behind where it ends. */
  lemma StepBack(b: seq<byte>, n: nat, c: Core)
    requires n <= |b| && c.offset <= n
    requires Step(b, c).Some? && Step(b, c).value != FAILED && Step(b, c).value.offset <= n
    ensures Step(b[..n], c) == Step(b, c)
  {
    if n == |b| {
      assert b[..n] == b;
    } else if c.phase == Headers {
      HeadersStepBack(b, n, c);
    } else if c.phase == ChunkSize || c.phase == Trailers {
      LineStepBack(b, n, c);
    } else {
      SameSlice(b[..n], b, c.offset, Step(b, c).value.offset);
    }
  }

  /** Cut inside a long line, before its end: the first part makes the parser give up. */
  lemma CutInsideLine(b: seq<byte>, c: Core) returns (n: nat)
    requires c.offset <= |b| && LongLine(b, c)
    ensures c.offset <= n <= |b| && Run(b[..n], c) == FAILED
  {
    n := c.offset + (if c.phase == ChunkSize then MAX_WAITING_SIZE_LINE else MAX_HEADER_BYTES) + 1;
    CrlfInPrefix(b[..n], b, c.offset);
    assert FirstCrlf(b[..n], c.offset).None?;
    assert Step(b[..n], c) == Some(FAILED);
    assert Run(b[..n], FAILED) == FAILED;
  }

  lemma {:induction false} BreakPoint(b: seq<byte>, c: Core) returns (n: nat)
    requires c.offset <= |b| && !NoLongLine(b, c) && (c.phase == Headers ==> c.offset == 0)
    ensures c.offset <= n <= |b| && Run(b[..n], c) == FAILED
    decreases Stage(c.phase), |b| - c.offset, Rank(c.phase)
  {
    if LongLine(b, c) {
      n := CutInsideLine(b, c);
    } else {
      var c1 := Step(b, c).value;
      n := BreakPoint(b, c1);
      StepBack(b, n, c);
    }
  }

  lemma FedInTwo(b: seq<byte>, n: nat)
    requires n <= |b| && Run(b[..n], START) == FAILED
    ensures Concat([b[..n], b[n..]]) == b && FeedAll(UNFED, [b[..n], b[n..]]).core == FAILED
  {
    var first, rest := b[..n], b[n..];
    var pieces := [first, rest];
    assert pieces[1..] == [rest] && [rest][1..] == [];
    assert Concat([rest]) == rest + Concat([]) == rest;
    assert Concat(pieces) == first + rest == b;
    assert [] + first == first;
    FinishedStays(Fed(first, FAILED), [rest]);
  }

  /** The parser comes to the same end for every way of splitting the bytes if and only if, fed
      all at once, it finishes no long line, or fails anyway. */
  lemma AllSplitsAgreeIff(b: seq<byte>)
    ensures AllSplitsAgree(b) <==> NoLongLine(b, START) || ResultOf(Run(b, START).phase) == Error
  {
    FailedIsFailed(b, START);
    if NoLongLine(b, START) || ResultOf(Run(b, START).phase) == Error {
      forall pieces | Concat(pieces) == b ensures Outcome(FeedAll(UNFED, pieces).core) == Outcome(Run(b, START)) {
        StartWaits();
        FeedingPieces(UNFED, pieces);
        assert UNFED.buffer + Concat(pieces) == Concat(pieces);
      }
    } else {
      var n := BreakPoint(b, START);
      FedInTwo(b, n);
      assert Concat([b[..n], b[n..]]) == b;
    }
  }
}
