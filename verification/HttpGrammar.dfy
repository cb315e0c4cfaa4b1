/** Exactly which bytes complete the parser: a head, and behind it a body of the length the head gives, or
    chunks, a last chunk, trailers and a blank line (section 7.1 of RFC 9112). */
module HttpGrammar {
  import opened Bytes
  import opened HttpText
  import opened HttpHead
  import opened HttpCore
  import opened HttpEncode

  // ---- Putting the bytes together -------------------------------------------------------------

  lemma AtJoin(b: seq<byte>, off: nat, u: seq<byte>, v: seq<byte>)
    requires At(b, off, u) && At(b, off + |u|, v)
    ensures At(b, off, u + v)
  {
    forall i | 0 <= i < |u + v| ensures b[off + i] == (u + v)[i] {
      if i >= |u| { assert b[off + |u| + (i - |u|)] == v[i - |u|]; }
    }
  }

  lemma SliceLies(b: seq<byte>, lo: nat, hi: nat)
    requires lo <= hi <= |b|
    ensures At(b, lo, b[lo..hi])
  {
  }

  lemma CrlfLies(b: seq<byte>, at: nat)
    requires CrlfAt(b, at)
    ensures At(b, at, CRLF)
  {
    assert b[at + 0] == CRLF[0] && b[at + 1] == CRLF[1];
  }

  /** A line found is a clean one. */
  lemma LineFound(b: seq<byte>, off: nat, e: nat) returns (line: seq<byte>)
    requires FirstCrlf(b, off) == Some(e)
    ensures off <= e && e + 2 <= |b| && line == b[off..e] && CleanLine(line) && At(b, off, line + CRLF)
  {
    line := b[off..e];
    SliceLies(b, off, e);
    CrlfLies(b, e);
    AtJoin(b, off, line, CRLF);
    FirstCrlfIsFirst(b, off);
    var w := line + CRLF;
    forall i | 0 <= i < |line| ensures !CrlfAt(w, i) {
      assert !CrlfAt(b, off + i);
      assert b[off + i] == w[i] && b[off + (i + 1)] == w[i + 1];
    }
  }

  // ---- Trailers -------------------------------------------------------------------------------

  /** The run from `c` completes at `end`. */
  predicate Ends(b: seq<byte>, c: Core, end: Core) {
    c.offset <= |b| && Run(b, c) == end && end.phase == Done
  }

  /** A state whose run completes steps on to another whose run does. */
  lemma StepsOn(b: seq<byte>, c: Core, end: Core)
    requires Ends(b, c, end) && c.phase != Done
    ensures Step(b, c).Some? && Step(b, c).value != FAILED && Ends(b, Step(b, c).value, end)
  {
    assert Run(b, FAILED) == FAILED;
  }

  lemma {:induction false} TrailersFound(b: seq<byte>, c: Core, end: Core) returns (trailers: seq<seq<byte>>)
    requires c.phase == Trailers && Ends(b, c, end)
    ensures ValidTrailers(trailers) && At(b, c.offset, TrailersWire(trailers) + CRLF) && end.body == c.body
    decreases |b| - c.offset
  {
    StepsOn(b, c, end);
    var next := Step(b, c).value;
    var e := FirstCrlf(b, c.offset).value;
    if e == c.offset {
      trailers := [];
      CrlfLies(b, e);
      assert TrailersWire(trailers) + CRLF == CRLF;
    } else {
      var line := LineFound(b, c.offset, e);
      var rest := TrailersFound(b, next, end);
      trailers := [line] + rest;
      TrailersJoin(line, rest);
      AtJoin(b, c.offset, line + CRLF, TrailersWire(rest) + CRLF);
    }
  }

  lemma TrailersJoin(line: seq<byte>, rest: seq<seq<byte>>)
    requires CleanLine(line) && COLON in line && ValidTrailers(rest)
    ensures ValidTrailers([line] + rest)
    ensures TrailersWire([line] + rest) + CRLF == (line + CRLF) + (TrailersWire(rest) + CRLF)
  {
    assert ([line] + rest)[1..] == rest;
  }

  // ---- Chunks ---------------------------------------------------------------------------------

  /** Behind the chunks: a last size line, trailers, and a blank line. */
  function EndWire(last: seq<byte>, trailers: seq<seq<byte>>): seq<byte> {
    (last + CRLF) + (TrailersWire(trailers) + CRLF)
  }

  predicate ValidEnd(last: seq<byte>, trailers: seq<seq<byte>>) {
    CleanLine(last) && LineSize(last) == Some(0) && ValidTrailers(trailers)
  }

  /** Body bytes that are not all there wait for the rest. */
  lemma PartWaits(b: seq<byte>, c: Core, end: Core)
    requires c.phase in {FixedBody, ChunkData} && c.offset <= |b| && |b| - c.offset < c.remaining
    ensures !Ends(b, c, end)
  {
    if Ends(b, c, end) { StepsOn(b, c, end); }
  }

  /** Chunk data that completes is all there. */
  lemma DataTaken(b: seq<byte>, c: Core, end: Core, next: Core)
    requires c.phase == ChunkData && c.remaining > 0 && Ends(b, c, end)
    requires c.offset + c.remaining <= |b| ==>
               next == Core(ChunkDataCrlf, c.offset + c.remaining, 0,
                            c.body + b[c.offset..c.offset + c.remaining])
    ensures c.offset + c.remaining <= |b| && |c.body| + c.remaining <= MAX_BODY_BYTES && Ends(b, next, end)
  {
    if |b| - c.offset < c.remaining { PartWaits(b, c, end); }
    StepsOn(b, c, end);
  }

  /** And a line end is behind it. */
  lemma EndTaken(b: seq<byte>, c: Core, end: Core)
    requires c.phase == ChunkDataCrlf && Ends(b, c, end)
    ensures CrlfAt(b, c.offset) && Ends(b, c.(phase := ChunkSize, offset := c.offset + 2), end)
  {
    StepsOn(b, c, end);
  }

  /** A size line that completes is a clean one. */
  lemma SizeTaken(b: seq<byte>, c: Core, end: Core) returns (line: seq<byte>, n: nat, next: Core)
    requires c.phase == ChunkSize && Ends(b, c, end)
    ensures CleanLine(line) && LineSize(line) == Some(n) && At(b, c.offset, line + CRLF)
    ensures c.offset + |line| + 2 <= |b| && |c.body| + n <= MAX_BODY_BYTES
    ensures next == Core(if n == 0 then Trailers else ChunkData, c.offset + |line| + 2, n, c.body) && Ends(b, next, end)
  {
    StepsOn(b, c, end);
    line := LineFound(b, c.offset, FirstCrlf(b, c.offset).value);
    n := LineSize(line).value;
    next := Step(b, c).value;
  }

  /** A whole chunk, and the parser behind it. */
  lemma ChunkTaken(b: seq<byte>, c: Core, line: seq<byte>, d: Core, end: Core) returns (chunk: Chunk)
    requires CleanLine(line) && LineSize(line) == Some(d.remaining) && At(b, c.offset, line + CRLF)
    requires d.phase == ChunkData && d.offset == c.offset + |line| + 2 && d.remaining > 0 && d.body == c.body
    requires Ends(b, d, end)
    ensures ValidChunk(chunk) && At(b, c.offset, ChunkWire(chunk)) && |c.body| + |chunk.data| <= MAX_BODY_BYTES
    ensures Ends(b, BehindFirst(c, chunk), end) && |ChunkWire(chunk)| > 0
  {
    var e := d.offset + d.remaining;
    if |b| < e { PartWaits(b, d, end); }
    chunk := Chunk(line, b[d.offset..e]);
    var mid := Core(ChunkDataCrlf, e, 0, c.body + chunk.data);
    DataTaken(b, d, end, mid);
    EndTaken(b, mid, end);
    ChunkLies(b, c.offset, chunk);
    BehindIs(c, chunk, e + 2);
  }

  lemma BehindIs(c: Core, chunk: Chunk, end: nat)
    requires end == c.offset + |ChunkWire(chunk)|
    ensures BehindFirst(c, chunk) == Core(ChunkSize, end, 0, c.body + chunk.data)
  {
  }

  lemma {:induction false} ChunksFound(b: seq<byte>, c: Core, end: Core)
    returns (chunks: seq<Chunk>, last: seq<byte>, trailers: seq<seq<byte>>)
    requires c.phase == ChunkSize && |c.body| <= MAX_BODY_BYTES && Ends(b, c, end)
    ensures ValidChunks(chunks) && ValidEnd(last, trailers)
    ensures At(b, c.offset, ChunksWire(chunks) + EndWire(last, trailers))
    ensures end.body == c.body + Data(chunks) && |end.body| <= MAX_BODY_BYTES
    decreases |b| - c.offset
  {
    var line, n, next := SizeTaken(b, c, end);
    if n == 0 {
      trailers := TrailersFound(b, next, end);
      chunks, last := [], line;
      AtJoin(b, c.offset, line + CRLF, TrailersWire(trailers) + CRLF);
      NoChunks(c.body, EndWire(last, trailers));
    } else {
      var chunk := ChunkTaken(b, c, line, next, end);
      var rest;
      rest, last, trailers := ChunksFound(b, BehindFirst(c, chunk), end);
      chunks := [chunk] + rest;
      ChunksJoin(chunk, rest, EndWire(last, trailers));
      AtJoin(b, c.offset, ChunkWire(chunk), ChunksWire(rest) + EndWire(last, trailers));
      Associate(c.body, chunk.data, Data(rest));
    }
  }

  lemma NoChunks(body: seq<byte>, end: seq<byte>)
    ensures ChunksWire([]) + end == end && body + Data([]) == body
  {
  }

  lemma ChunkLies(b: seq<byte>, off: nat, chunk: Chunk)
    requires At(b, off, chunk.line + CRLF)
    requires var data := off + |chunk.line| + 2;
             data + |chunk.data| <= |b| && b[data..data + |chunk.data|] == chunk.data && CrlfAt(b, data + |chunk.data|)
    ensures At(b, off, ChunkWire(chunk)) && |ChunkWire(chunk)| == |chunk.line| + |chunk.data| + 4
  {
    var data := off + |chunk.line| + 2;
    SliceLies(b, data, data + |chunk.data|);
    CrlfLies(b, data + |chunk.data|);
    AtJoin(b, data, chunk.data, CRLF);
    AtJoin(b, off, chunk.line + CRLF, chunk.data + CRLF);
  }

  lemma ChunksJoin(chunk: Chunk, rest: seq<Chunk>, end: seq<byte>)
    requires ValidChunk(chunk) && ValidChunks(rest)
    ensures ValidChunks([chunk] + rest) && Data([chunk] + rest) == chunk.data + Data(rest)
    ensures ChunksWire([chunk] + rest) + end == ChunkWire(chunk) + (ChunksWire(rest) + end)
  {
    assert ([chunk] + rest)[1..] == rest;
    Associate(ChunkWire(chunk), ChunksWire(rest), end);
  }

  // ---- Whole responses ------------------------------------------------------------------------

  predicate Lies(b: seq<byte>, head: seq<byte>, chunks: seq<Chunk>, last: seq<byte>, trailers: seq<seq<byte>>) {
    && IsHead(head) && HeadFraming(head) == Chunked && ValidChunks(chunks) && ValidEnd(last, trailers)
    && At(b, 0, head + (CRLF + CRLF)) && At(b, |head| + 4, ChunksWire(chunks) + EndWire(last, trailers))
  }

  /** The bytes begin with a chunked response that carries `body`. */
  ghost predicate IsChunked(b: seq<byte>, body: seq<byte>) {
    exists head, chunks, last, trailers :: Lies(b, head, chunks, last, trailers) && body == Data(chunks)
  }

  /** The bytes begin with a response that announces the length of `body` and carries it. */
  ghost predicate IsFixed(b: seq<byte>, body: seq<byte>) {
    exists head ::
      IsHead(head) && HeadFraming(head) == Fixed(|body|) && At(b, 0, head + (CRLF + CRLF)) && At(b, |head| + 4, body)
  }

  lemma HeadFound(b: seq<byte>, e: nat) returns (head: seq<byte>)
    requires FirstBlankLine(b, 0) == Some(e) && e + 4 <= MAX_HEADER_BYTES
    ensures head == b[..e] && IsHead(head) && At(b, 0, head + (CRLF + CRLF))
  {
    head := b[..e];
    assert b[0..e] == head;
    SliceLies(b, 0, e);
    CrlfLies(b, e);
    CrlfLies(b, e + 2);
    AtJoin(b, e, CRLF, CRLF);
    AtJoin(b, 0, head, CRLF + CRLF);
    FirstBlankLineIsFirst(b, 0);
    var w := head + (CRLF + CRLF);
    forall i | 0 <= i < e ensures !BlankLineAt(w, i) {
      assert !BlankLineAt(b, i);
      SameAt(b, w, i);
    }
  }

  lemma SameAt(b: seq<byte>, w: seq<byte>, i: nat)
    requires At(b, 0, w) && i + 4 <= |w|
    ensures BlankLineAt(b, i) <==> BlankLineAt(w, i)
  {
    assert b[0 + i] == w[i] && b[0 + (i + 1)] == w[i + 1];
    assert b[0 + (i + 2)] == w[i + 2] && b[0 + (i + 3)] == w[i + 3];
  }

  /** The head, and where the parser stands behind it. */
  lemma HeadTaken(b: seq<byte>, end: Core) returns (head: seq<byte>, c: Core)
    requires Ends(b, START, end)
    ensures IsHead(head) && At(b, 0, head + (CRLF + CRLF)) && |head| + 4 <= |b| && !HeadFraming(head).Bad?
    ensures c == Framed(START, |head| + 4, HeadFraming(head)) && Ends(b, c, end)
  {
    StepsOn(b, START, end);
    HeadStep(b);
    head := HeadFound(b, FirstBlankLine(b, 0).value);
    c := Step(b, START).value;
  }

  lemma HeadStep(b: seq<byte>)
    requires Step(b, START).Some? && Step(b, START).value != FAILED
    ensures FirstBlankLine(b, 0).Some? && FirstBlankLine(b, 0).value + 4 <= MAX_HEADER_BYTES
    ensures var e := FirstBlankLine(b, 0).value;
            !HeadFraming(b[..e]).Bad? && Step(b, START) == Some(Framed(START, e + 4, HeadFraming(b[..e])))
  {
  }

  lemma FixedFound(b: seq<byte>, c: Core, end: Core)
    requires c.body == [] && Ends(b, c, end) && c.phase == if c.remaining == 0 then Done else FixedBody
    ensures |end.body| == c.remaining && At(b, c.offset, end.body)
  {
    if c.remaining > 0 {
      if |b| - c.offset < c.remaining { PartWaits(b, c, end); }
      StepsOn(b, c, end);
      SliceLies(b, c.offset, c.offset + c.remaining);
      assert [] + b[c.offset..c.offset + c.remaining] == b[c.offset..c.offset + c.remaining];
    }
  }

  lemma FixedLies(b: seq<byte>, head: seq<byte>, body: seq<byte>)
    requires IsHead(head) && At(b, 0, head + (CRLF + CRLF)) && At(b, |head| + 4, body)
    requires HeadFraming(head) == Fixed(|body|)
    ensures IsFixed(b, body) && |body| <= 65535
  {
  }

  lemma ChunkedFound(b: seq<byte>, head: seq<byte>, end: Core)
    requires IsHead(head) && HeadFraming(head) == Chunked && At(b, 0, head + (CRLF + CRLF))
    requires Ends(b, Core(ChunkSize, |head| + 4, 0, []), end)
    ensures IsChunked(b, end.body) && |end.body| <= 65535
  {
    var chunks, last, trailers := ChunksFound(b, Core(ChunkSize, |head| + 4, 0, []), end);
    assert [] + Data(chunks) == Data(chunks);
    assert Lies(b, head, chunks, last, trailers);
  }

  /** What completes the parser is one or the other. */
  lemma CompletedIsWellFormed(b: seq<byte>, end: Core)
    requires Ends(b, START, end)
    ensures IsChunked(b, end.body) || IsFixed(b, end.body)
    ensures |end.body| <= 65535
  {
    var head, c := HeadTaken(b, end);
    if HeadFraming(head) == Chunked {
      ChunkedFound(b, head, end);
    } else {
      FixedFound(b, c, end);
      FixedLies(b, head, end.body);
    }
  }

  lemma ChunkedCompletes(b: seq<byte>, head: seq<byte>, chunks: seq<Chunk>, last: seq<byte>, trailers: seq<seq<byte>>)
    requires Lies(b, head, chunks, last, trailers) && |Data(chunks)| <= 65535
    ensures Outcome(Run(b, START)) == (Complete, Data(chunks))
  {
    AtParts(b, |head| + 4, ChunksWire(chunks), EndWire(last, trailers));
    RunParts(b, head, chunks, last, trailers, false);
  }

  lemma IsChunkedCompletes(b: seq<byte>, body: seq<byte>)
    requires IsChunked(b, body) && |body| <= 65535
    ensures Outcome(Run(b, START)) == (Complete, body)
  {
    var head, chunks, last, trailers :| Lies(b, head, chunks, last, trailers) && body == Data(chunks);
    ChunkedCompletes(b, head, chunks, last, trailers);
  }

  lemma IsFixedCompletes(b: seq<byte>, body: seq<byte>)
    requires IsFixed(b, body) && |body| <= 65535
    ensures Outcome(Run(b, START)) == (Complete, body)
  {
    var head :| IsHead(head) && HeadFraming(head) == Fixed(|body|) &&
      At(b, 0, head + (CRLF + CRLF)) && At(b, |head| + 4, body);
    RunFixed(b, head, body);
  }

  /** The parser, fed at once, completes with a body if and only if the bytes begin with a well-formed
      response that carries it, chunked or of a fixed length, and it has at most 65535 bytes. */
  lemma CompletesIff(b: seq<byte>, body: seq<byte>)
    ensures Outcome(Run(b, START)) == (Complete, body) <==>
            |body| <= 65535 && (IsChunked(b, body) || IsFixed(b, body))
  {
    if Outcome(Run(b, START)) == (Complete, body) {
      CompletedIsWellFormed(b, Run(b, START));
    } else if |body| <= 65535 {
      if IsChunked(b, body) { IsChunkedCompletes(b, body); }
      if IsFixed(b, body) { IsFixedCompletes(b, body); }
    }
  }
}
