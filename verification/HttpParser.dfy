/** HttpResponseParser of src/dns/http_response.cpp: a growing buffer, a phase, and a scan
    offset that lets a search resume where the last one gave up. */
module HttpParser {
  import opened Bytes
  import opened HttpText
  import opened HttpHead
  import opened HttpCore

  /** The size in front of any extension, blanks trimmed, in hexadecimal. */
  method ReadSize(line: seq<byte>) returns (size: Option<nat>)
    ensures size == LineSize(line)
  {
    var semi := IndexOf(line, SEMICOLON, 0);
    var sizeText := Trim(line[..semi]);
    size := ParseNumber(sizeText, 16);
  }

  class HttpResponseParser {
    var buffer: seq<byte>
    var body: seq<byte>
    var offset: nat
    var scanOffset: nat
    var remaining: nat
    var phase: Phase
    var result: Result

    /** Where the parser stands, without the scan offset. */
    ghost function Standing(): Core
      reads this
    {
      if phase == Failed then FAILED else Core(phase, offset, remaining, body)
    }

    /** What was scanned before the scan offset holds no marker. */
    ghost predicate Valid()
      reads this
    {
      && offset <= |buffer| && |body| <= MAX_BODY_BYTES
      && (phase == Headers ==>
            (scanOffset == 0 || scanOffset + 3 <= |buffer|) && NoBlankLine(buffer, 0, scanOffset))
      && (phase == ChunkSize || phase == Trailers ==>
            (scanOffset == offset || offset < scanOffset < |buffer|) && NoCrlf(buffer, offset, scanOffset))
    }

    /** Between two calls: nothing more can be done with the bytes at hand. */
    ghost predicate Settled()
      reads this
    {
      Valid() && result == ResultOf(phase) && Step(buffer, Standing()).None?
    }

    /** What one phase's work leaves: a step taken if it goes on, and otherwise nothing more to
        be done with the bytes at hand. */
    twostate predicate Advanced(wait: bool)
      reads this
      requires old(Valid())
    {
      && Valid() && buffer == old(buffer)
      && (Step(buffer, old(Standing())) == Some(Standing()) || (wait && Standing() == old(Standing())))
      && result == (if phase == Failed then Error else NeedMore)
      && (wait ==> Step(buffer, Standing()).None? && phase != Done)
      && (!wait ==> phase != Failed && Below(phase, offset, old(phase), old(offset)))
    }

    /** The measure of the main loop goes down. */
    ghost predicate Below(p: Phase, at: nat, oldP: Phase, oldAt: nat) {
      || Stage(p) < Stage(oldP)
      || (Stage(p) == Stage(oldP) && oldAt < at)
      || (Stage(p) == Stage(oldP) && oldAt == at && Rank(p) < Rank(oldP))
    }

    ghost function AsFed(): Fed
      reads this
    {
      Fed(buffer, Standing())
    }

    constructor ()
      ensures Settled() && AsFed() == UNFED
    {
      buffer, body := [], [];
      offset, scanOffset, remaining := 0, 0, 0;
      phase, result := Headers, NeedMore;
    }

    method Fail()
      requires Valid()
      modifies this
      ensures Valid() && Standing() == FAILED && result == Error && phase == Failed
      ensures buffer == old(buffer)
    {
      phase := Failed;
      result := Error;
      body := [];
    }

    /** The end of the header block. Without one the parser waits for more bytes, or gives up when
        too many came already. */
    method NextHead() returns (headEnd: Option<nat>)
      requires Valid() && phase == Headers && result == NeedMore
      modifies this
      ensures Valid() && buffer == old(buffer)
      ensures headEnd == FirstBlankLine(buffer, 0)
      ensures headEnd.None? && |buffer| > MAX_HEADER_BYTES ==> phase == Failed && result == Error
      ensures headEnd.Some? || |buffer| <= MAX_HEADER_BYTES ==>
                phase == Headers && Standing() == old(Standing()) && result == NeedMore
    {
      BlankLineResumes(buffer, 0, scanOffset);
      FirstBlankLineIsFirst(buffer, 0);
      headEnd := FindHeaderEnd(buffer, scanOffset);
      if headEnd.None? {
        if |buffer| > MAX_HEADER_BYTES { Fail(); }
        scanOffset := if |buffer| > 3 then |buffer| - 3 else 0;
      }
    }

    /** The header block. `wait` says that Process returns. */
    method TakeHeaders() returns (wait: bool)
      requires Valid() && phase == Headers && result == NeedMore
      modifies this
      ensures Advanced(wait)
    {
      var headEnd := NextHead();
      if headEnd.None? { return true; }
      var framing := Bad;
      if headEnd.value + 4 <= MAX_HEADER_BYTES { framing := ReadHead(buffer[..headEnd.value]); }
      if framing.Bad? {
        Fail();
        return true;
      }
      Begin(headEnd.value + 4, framing);
      wait := false;
    }

    /** The body begins as its framing says. */
    method Begin(bodyStart: nat, framing: Framing)
      requires Valid() && phase == Headers && bodyStart <= |buffer| && !framing.Bad?
      modifies this
      ensures Valid() && buffer == old(buffer) && result == old(result) && phase != Headers && phase != Failed
      ensures Standing() == Framed(old(Standing()), bodyStart, framing)
    {
      offset := bodyStart;
      if framing.Chunked? {
        phase := ChunkSize;
        scanOffset := offset;
      } else {
        remaining := framing.length;
        phase := if remaining == 0 then Done else FixedBody;
      }
    }

    /** Body bytes, of the whole body or of one chunk. */
    method TakeBody() returns (wait: bool)
      requires Valid() && (phase == FixedBody || phase == ChunkData) && result == NeedMore
      modifies this
      ensures Advanced(wait)
    {
      var available := |buffer| - offset;
      var take := if available < remaining then available else remaining;
      if take > MAX_BODY_BYTES - |body| {
        Fail();
        return true;
      }
      body := body + buffer[offset..offset + take];
      offset := offset + take;
      remaining := remaining - take;
      if remaining != 0 { return true; }
      phase := if phase == FixedBody then Done else ChunkDataCrlf;
      wait := false;
    }

    /** The end of the line at the offset. Without one the parser waits for more bytes, or gives
        up when too many came already. */
    method NextLine(limit: nat) returns (lineEnd: Option<nat>)
      requires Valid() && (phase == ChunkSize || phase == Trailers) && result == NeedMore
      modifies this
      ensures Valid() && buffer == old(buffer)
      ensures lineEnd == FirstCrlf(buffer, old(offset))
      ensures lineEnd.None? && |buffer| - old(offset) > limit ==> phase == Failed && result == Error
      ensures lineEnd.Some? || |buffer| - old(offset) <= limit ==>
                phase == old(phase) && Standing() == old(Standing()) && result == NeedMore
    {
      CrlfResumes(buffer, offset, scanOffset);
      FirstCrlfIsFirst(buffer, offset);
      lineEnd := FindCrlf(buffer, scanOffset);
      if lineEnd.None? {
        if |buffer| - offset > limit { Fail(); }
        scanOffset := if offset > |buffer| - 1 then offset else |buffer| - 1;
      }
    }

    method TakeChunkSize() returns (wait: bool)
      requires Valid() && phase == ChunkSize && result == NeedMore
      modifies this
      ensures Advanced(wait)
    {
      var lineEnd := NextLine(MAX_WAITING_SIZE_LINE);
      if lineEnd.None? { return true; }
      var chunkSize := ReadSize(buffer[offset..lineEnd.value]);
      if chunkSize.None? || chunkSize.value > MAX_BODY_BYTES - |body| {
        Fail();
        return true;
      }
      offset := lineEnd.value + 2;
      scanOffset := offset;
      remaining := chunkSize.value;
      phase := if chunkSize.value == 0 then Trailers else ChunkData;
      wait := false;
    }

    method TakeChunkEnd() returns (wait: bool)
      requires Valid() && phase == ChunkDataCrlf && result == NeedMore
      modifies this
      ensures Advanced(wait)
    {
      if |buffer| - offset < 2 { return true; }
      if buffer[offset] != CR || buffer[offset + 1] != LF {
        Fail();
        return true;
      }
      offset := offset + 2;
      phase := ChunkSize;
      scanOffset := offset;
      wait := false;
    }

    method TakeTrailer() returns (wait: bool)
      requires Valid() && phase == Trailers && result == NeedMore
      modifies this
      ensures Advanced(wait)
    {
      var lineEnd := NextLine(MAX_HEADER_BYTES);
      if lineEnd.None? { return true; }
      if lineEnd.value == offset {
        offset := offset + 2;
        phase := Done;
        return false;
      }
      if COLON !in buffer[offset..lineEnd.value] {
        Fail();
        return true;
      }
      offset := lineEnd.value + 2;
      scanOffset := offset;
      wait := false;
    }

    /** Resuming every search where the last one stopped comes to the same end as searching
        from the beginning each time. */
    method Process()
      requires Valid() && result == NeedMore && phase != Failed
      modifies this
      ensures Settled() && buffer == old(buffer)
      ensures Standing() == Run(buffer, old(Standing()))
    {
      while phase != Done
        invariant Valid() && result == NeedMore && phase != Failed && buffer == old(buffer)
        invariant Run(buffer, Standing()) == Run(buffer, old(Standing()))
        decreases Stage(phase), |buffer| - offset, Rank(phase)
      {
        var wait;
        if phase == Headers {
          wait := TakeHeaders();
        } else if phase == FixedBody || phase == ChunkData {
          wait := TakeBody();
        } else if phase == ChunkSize {
          wait := TakeChunkSize();
        } else if phase == ChunkDataCrlf {
          wait := TakeChunkEnd();
        } else {
          wait := TakeTrailer();
        }
        if wait { return; }
      }
      result := Complete;
    }

    /** Take in one piece. None stands for a null pointer with a nonzero length. */
    method Feed(data: Option<seq<byte>>) returns (r: Result)
      requires Settled()
      modifies this
      ensures Settled() && r == result
      ensures data.Some? ==> AsFed() == FeedOne(old(AsFed()), data.value)
      ensures data.None? ==> AsFed() == if old(result) == NeedMore then Fed(old(buffer), FAILED) else old(AsFed())
    {
      if result != NeedMore { return result; }
      if data.None? {
        Fail();
        return result;
      }
      MarkersSurvive(data.value);
      buffer := buffer + data.value;
      Process();
      return result;
    }

    /** More bytes behind bring no marker to where there was none. */
    lemma MarkersSurvive(data: seq<byte>)
      requires Settled() && result == NeedMore
      ensures phase == Headers ==> NoBlankLine(buffer + data, 0, scanOffset)
      ensures phase == ChunkSize || phase == Trailers ==> NoCrlf(buffer + data, offset, scanOffset)
    {
      var more := buffer + data;
      assert forall i :: 0 <= i < |buffer| ==> more[i] == buffer[i];
      if phase == Headers {
        assert forall i :: 0 <= i < scanOffset ==> (BlankLineAt(more, i) <==> BlankLineAt(buffer, i));
      } else if phase == ChunkSize || phase == Trailers {
        assert forall i :: offset <= i < scanOffset ==> (CrlfAt(more, i) <==> CrlfAt(buffer, i));
      }
    }

    method Finish() returns (r: Result)
      requires Settled()
      modifies this
      ensures Settled() && r == result
      ensures r == if old(result) == Complete then Complete else Error
      ensures r == Complete ==> body == old(body)
    {
      if result != NeedMore { return result; }
      Process();
      if result == NeedMore { Fail(); }
      return result;
    }
  }
}
