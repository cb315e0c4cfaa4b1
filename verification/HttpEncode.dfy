/** Encoded responses come back whole: section 7.1 of RFC 9112 for chunks, section 6.3 for a
    Content-Length. */
module HttpEncode {
  import opened Bytes
  import opened HttpText
  import opened HttpHead
  import opened HttpCore
  import HttpSplit

  const CRLF: seq<byte> := [CR, LF]

  /** The bytes `w` lie in `b` at `off`. */
  predicate At(b: seq<byte>, off: nat, w: seq<byte>) {
    off + |w| <= |b| && forall i :: 0 <= i < |w| ==> b[off + i] == w[i]
  }

  /** Followed by a line end, the line ends there and not before. */
  predicate CleanLine(line: seq<byte>) {
    NoCrlf(line + CRLF, 0, |line|)
  }

  /** One chunk: its size line, extensions and all, and its data. */
  datatype Chunk = Chunk(line: seq<byte>, data: seq<byte>)

  predicate ValidChunk(c: Chunk) {
    CleanLine(c.line) && c.data != [] && LineSize(c.line) == Some(|c.data|)
  }

  predicate ValidChunks(chunks: seq<Chunk>) {
    forall i :: 0 <= i < |chunks| ==> ValidChunk(chunks[i])
  }

  predicate ValidTrailers(trailers: seq<seq<byte>>) {
    forall i :: 0 <= i < |trailers| ==> CleanLine(trailers[i]) && COLON in trailers[i]
  }

  function ChunkWire(c: Chunk): seq<byte> {
    c.line + CRLF + (c.data + CRLF)
  }

  function ChunksWire(chunks: seq<Chunk>): seq<byte> {
    if chunks == [] then [] else ChunkWire(chunks[0]) + ChunksWire(chunks[1..])
  }

  function TrailersWire(trailers: seq<seq<byte>>): seq<byte> {
    if trailers == [] then [] else (trailers[0] + CRLF) + TrailersWire(trailers[1..])
  }

  function Data(chunks: seq<Chunk>): seq<byte> {
    if chunks == [] then [] else chunks[0].data + Data(chunks[1..])
  }

  predicate ShortLines(chunks: seq<Chunk>, trailers: seq<seq<byte>>) {
    && (forall i :: 0 <= i < |chunks| ==> |chunks[i].line| < MAX_WAITING_SIZE_LINE)
    && (forall i :: 0 <= i < |trailers| ==> |trailers[i]| < MAX_HEADER_BYTES)
  }

  // ---- Finding a line in the middle of the bytes ------------------------------------------

  lemma AtParts(b: seq<byte>, off: nat, u: seq<byte>, v: seq<byte>)
    requires At(b, off, u + v)
    ensures At(b, off, u) && At(b, off + |u|, v)
  {
    var w := u + v;
    forall i | 0 <= i < |u| ensures b[off + i] == u[i] { assert w[i] == u[i]; }
    forall i | 0 <= i < |v| ensures b[off + |u| + i] == v[i] { assert w[|u| + i] == v[i]; }
  }

  lemma SliceAt(b: seq<byte>, off: nat, w: seq<byte>)
    requires At(b, off, w)
    ensures b[off..off + |w|] == w
  {
  }

  lemma LineEndsAt(b: seq<byte>, off: nat, line: seq<byte>)
    requires At(b, off, line + CRLF) && CleanLine(line)
    ensures FirstCrlf(b, off) == Some(off + |line|)
    ensures b[off..off + |line|] == line
  {
    var w := line + CRLF;
    var e := off + |line|;
    assert CrlfAt(b, e) by {
      assert b[off + |line|] == w[|line|] && b[off + (|line| + 1)] == w[|line| + 1];
    }
    forall i | off <= i < e ensures !CrlfAt(b, i) {
      assert !CrlfAt(w, i - off);
      assert b[off + (i - off)] == w[i - off] && b[off + (i - off + 1)] == w[i - off + 1];
    }
    CrlfResumes(b, off, e);
    AtParts(b, off, line, CRLF);
    SliceAt(b, off, line);
  }

  // ---- Running over the chunks ----------------------------------------------------------------

  /** One step leads from `c` to `d`, and if the lines are `short`, it finishes no long one. */
  ghost predicate Goes(b: seq<byte>, c: Core, d: Core, short: bool) {
    c.offset <= |b| && Step(b, c) == Some(d) && (short ==> !LongLine(b, c))
  }

  ghost function Stepping(b: seq<byte>, short: bool): (Core, Core) -> bool {
    (c, d) => Goes(b, c, d, short)
  }

  /** `n` steps of a relation. */
  ghost predicate Path(step: (Core, Core) -> bool, c: Core, d: Core, n: nat)
    decreases n
  {
    if n == 0 then c == d else exists m :: step(c, m) && Path(step, m, d, n - 1)
  }

  ghost predicate Leads(b: seq<byte>, c: Core, d: Core, short: bool) {
    exists n: nat :: Path(Stepping(b, short), c, d, n)
  }

  lemma {:induction false} PathConcat(step: (Core, Core) -> bool, c: Core, d: Core, e: Core, n: nat, m: nat)
    requires Path(step, c, d, n) && Path(step, d, e, m)
    ensures Path(step, c, e, n + m)
    decreases n
  {
    if n > 0 {
      var c1 :| step(c, c1) && Path(step, c1, d, n - 1);
      PathConcat(step, c1, d, e, n - 1, m);
    }
  }

  lemma Chain(b: seq<byte>, c: Core, d: Core, e: Core, short: bool)
    requires Leads(b, c, d, short) && Leads(b, d, e, short)
    ensures Leads(b, c, e, short)
  {
    var step := Stepping(b, short);
    var n: nat :| Path(step, c, d, n);
    var m: nat :| Path(step, d, e, m);
    PathConcat(step, c, d, e, n, m);
  }

  lemma NoStep(b: seq<byte>, c: Core, short: bool)
    ensures Leads(b, c, c, short)
  {
    assert Path(Stepping(b, short), c, c, 0);
  }

  lemma OneStep(b: seq<byte>, c: Core, d: Core, short: bool)
    requires Goes(b, c, d, short)
    ensures Leads(b, c, d, short)
  {
    var step := Stepping(b, short);
    assert step(c, d) && Path(step, d, d, 0);
    assert Path(step, c, d, 1);
  }

  lemma {:induction false} PathRun(b: seq<byte>, c: Core, d: Core, n: nat, short: bool)
    requires Path(Stepping(b, short), c, d, n) && c.offset <= |b|
    ensures d.offset <= |b| && Run(b, c) == Run(b, d)
    ensures short ==> NoLongLine(b, c) == NoLongLine(b, d)
    decreases n
  {
    if n > 0 {
      var step := Stepping(b, short);
      var c1 :| step(c, c1) && Path(step, c1, d, n - 1);
      assert Goes(b, c, c1, short);
      PathRun(b, c1, d, n - 1, short);
    }
  }

  /** Running from a state is running from any state it leads to. */
  lemma LeadsRun(b: seq<byte>, c: Core, d: Core, short: bool)
    requires Leads(b, c, d, short) && c.offset <= |b|
    ensures d.offset <= |b| && Run(b, c) == Run(b, d)
    ensures short ==> NoLongLine(b, c) == NoLongLine(b, d)
  {
    var n: nat :| Path(Stepping(b, short), c, d, n);
    PathRun(b, c, d, n, short);
  }

  lemma PassSizeLine(b: seq<byte>, c: Core, line: seq<byte>, n: nat, short: bool)
    requires c.phase == ChunkSize && c.offset <= |b|
    requires CleanLine(line) && LineSize(line) == Some(n) && At(b, c.offset, line + CRLF)
    requires |c.body| + n <= MAX_BODY_BYTES
    requires short ==> |line| < MAX_WAITING_SIZE_LINE
    ensures Leads(b, c, Core(if n == 0 then Trailers else ChunkData, c.offset + |line| + 2, n, c.body), short)
  {
    LineEndsAt(b, c.offset, line);
    assert Step(b, c) == SizeStep(b, c);
    OneStep(b, c, Core(if n == 0 then Trailers else ChunkData, c.offset + |line| + 2, n, c.body), short);
  }

  lemma PassData(b: seq<byte>, c: Core, data: seq<byte>, short: bool)
    requires c.phase == ChunkData && c.offset <= |b| && c.remaining == |data| > 0
    requires At(b, c.offset, data) && |c.body| + |data| <= MAX_BODY_BYTES
    ensures Leads(b, c, Core(ChunkDataCrlf, c.offset + |data|, 0, c.body + data), short)
  {
    SliceAt(b, c.offset, data);
    assert Step(b, c) == BodyStep(b, c);
    OneStep(b, c, Core(ChunkDataCrlf, c.offset + |data|, 0, c.body + data), short);
  }

  lemma PassDataEnd(b: seq<byte>, c: Core, short: bool)
    requires c.phase == ChunkDataCrlf && c.offset <= |b| && At(b, c.offset, CRLF)
    ensures Leads(b, c, c.(phase := ChunkSize, offset := c.offset + 2), short)
  {
    assert b[c.offset + 0] == CRLF[0] && b[c.offset + 1] == CRLF[1];
    assert Step(b, c) == CrlfStep(b, c);
    OneStep(b, c, c.(phase := ChunkSize, offset := c.offset + 2), short);
  }

  lemma ChunkParts(b: seq<byte>, off: nat, chunk: Chunk)
    requires At(b, off, ChunkWire(chunk))
    ensures At(b, off, chunk.line + CRLF) && At(b, off + |chunk.line| + 2, chunk.data)
    ensures At(b, off + |chunk.line| + 2 + |chunk.data|, CRLF)
    ensures |ChunkWire(chunk)| == |chunk.line| + 2 + |chunk.data| + 2
  {
    AtParts(b, off, chunk.line + CRLF, chunk.data + CRLF);
    AtParts(b, off + |chunk.line| + 2, chunk.data, CRLF);
  }

  lemma RunChunk(b: seq<byte>, c: Core, chunk: Chunk, short: bool)
    requires c.phase == ChunkSize && c.offset <= |b|
    requires ValidChunk(chunk) && At(b, c.offset, ChunkWire(chunk)) && |c.body| + |chunk.data| <= MAX_BODY_BYTES
    requires short ==> |chunk.line| < MAX_WAITING_SIZE_LINE
    ensures Leads(b, c, Core(ChunkSize, c.offset + |ChunkWire(chunk)|, 0, c.body + chunk.data), short)
  {
    var size, data, body := |chunk.data|, c.offset + |chunk.line| + 2, c.body + chunk.data;
    ChunkParts(b, c.offset, chunk);
    var c1 := Core(ChunkData, data, size, c.body);
    var c2 := Core(ChunkDataCrlf, data + size, 0, body);
    var c3 := Core(ChunkSize, data + size + 2, 0, body);
    PassSizeLine(b, c, chunk.line, size, short);
    PassData(b, c1, chunk.data, short);
    PassDataEnd(b, c2, short);
    Chain(b, c, c1, c2, short);
    Chain(b, c, c2, c3, short);
  }

  /** Where the parser stands behind `chunks`. */
  function Behind(c: Core, chunks: seq<Chunk>): Core {
    Core(ChunkSize, c.offset + |ChunksWire(chunks)|, 0, c.body + Data(chunks))
  }

  function BehindFirst(c: Core, chunk: Chunk): Core {
    Core(ChunkSize, c.offset + |ChunkWire(chunk)|, 0, c.body + chunk.data)
  }

  /** The parser stands at the size line of the first of `chunks`. */
  ghost predicate AtChunks(b: seq<byte>, c: Core, chunks: seq<Chunk>, short: bool) {
    && c.phase == ChunkSize && c.offset <= |b| && c.remaining == 0
    && ValidChunks(chunks) && At(b, c.offset, ChunksWire(chunks)) && |c.body| + |Data(chunks)| <= MAX_BODY_BYTES
    && (short ==> ShortLines(chunks, []))
  }

  lemma BehindRest(c: Core, chunks: seq<Chunk>)
    requires chunks != []
    ensures Behind(BehindFirst(c, chunks[0]), chunks[1..]) == Behind(c, chunks)
  {
    Associate(c.body, chunks[0].data, Data(chunks[1..]));
  }

  lemma RunFirst(b: seq<byte>, c: Core, chunks: seq<Chunk>, short: bool)
    requires AtChunks(b, c, chunks, short) && chunks != []
    ensures Leads(b, c, BehindFirst(c, chunks[0]), short) && AtChunks(b, BehindFirst(c, chunks[0]), chunks[1..], short)
  {
    AtParts(b, c.offset, ChunkWire(chunks[0]), ChunksWire(chunks[1..]));
    RunChunk(b, c, chunks[0], short);
  }

  lemma {:induction false} RunChunks(b: seq<byte>, c: Core, chunks: seq<Chunk>, short: bool)
    requires AtChunks(b, c, chunks, short)
    ensures Leads(b, c, Behind(c, chunks), short)
    decreases |chunks|
  {
    if chunks == [] {
      assert Behind(c, chunks) == c by { assert c.body + [] == c.body; }
      NoStep(b, c, short);
    } else {
      RunFirst(b, c, chunks, short);
      RunChunks(b, BehindFirst(c, chunks[0]), chunks[1..], short);
      BehindRest(c, chunks);
      Chain(b, c, BehindFirst(c, chunks[0]), Behind(c, chunks), short);
    }
  }

  lemma Associate(x: seq<byte>, y: seq<byte>, z: seq<byte>)
    ensures (x + y) + z == x + (y + z)
  {
  }

  lemma {:induction false} RunTrailers(b: seq<byte>, c: Core, trailers: seq<seq<byte>>)
    requires c.phase == Trailers && c.offset <= |b|
    requires ValidTrailers(trailers) && At(b, c.offset, TrailersWire(trailers) + CRLF)
    ensures Run(b, c).phase == Done && Run(b, c).body == c.body
    ensures ShortLines([], trailers) ==> NoLongLine(b, c)
    decreases |trailers|
  {
    AtParts(b, c.offset, TrailersWire(trailers), CRLF);
    if trailers == [] {
      assert CleanLine([]);
      assert [] + CRLF == CRLF;
      LineEndsAt(b, c.offset, []);
      var end := c.(phase := Done, offset := c.offset + 2);
      assert Step(b, c) == Some(end);
      assert Run(b, end) == end && NoLongLine(b, end);
    } else {
      var line, rest := trailers[0], trailers[1..];
      assert TrailersWire(trailers) + CRLF == (line + CRLF) + (TrailersWire(rest) + CRLF);
      AtParts(b, c.offset, line + CRLF, TrailersWire(rest) + CRLF);
      LineEndsAt(b, c.offset, line);
      assert line != [];
      var next := c.(offset := c.offset + |line| + 2);
      assert Step(b, c) == Some(next);
      RunTrailers(b, next, rest);
    }
  }

  // ---- Whole responses ----------------------------------------------------------------------

  /** A head, without its closing blank line, that the parser takes for a whole head. */
  predicate IsHead(head: seq<byte>) {
    NoBlankLine(head + (CRLF + CRLF), 0, |head|) && |head| + 4 <= MAX_HEADER_BYTES
  }

  lemma RunHead(b: seq<byte>, head: seq<byte>)
    requires At(b, 0, head + (CRLF + CRLF)) && IsHead(head)
    ensures FirstBlankLine(b, 0) == Some(|head|) && b[..|head|] == head
  {
    var w := head + (CRLF + CRLF);
    var e := |head|;
    assert forall i :: 0 <= i < |w| ==> b[0 + i] == w[i];
    assert BlankLineAt(b, e) by {
      assert w[e] == CR && w[e + 1] == LF && w[e + 2] == CR && w[e + 3] == LF;
    }
    forall i | 0 <= i < e ensures !BlankLineAt(b, i) {
      assert !BlankLineAt(w, i);
    }
    BlankLineResumes(b, 0, e);
    AtParts(b, 0, head, CRLF + CRLF);
    SliceAt(b, 0, head);
    assert b[..e] == b[0..e];
  }

  /** A whole chunked response: a head, chunks, a last chunk of size 0, trailers, a blank line. */
  function ChunkedResponse(head: seq<byte>, chunks: seq<Chunk>, last: seq<byte>, trailers: seq<seq<byte>>): seq<byte> {
    (head + (CRLF + CRLF)) + (ChunksWire(chunks) + ((last + CRLF) + (TrailersWire(trailers) + CRLF)))
  }

  lemma RunChunked(head: seq<byte>, chunks: seq<Chunk>, last: seq<byte>, trailers: seq<seq<byte>>, short: bool)
    requires IsHead(head) && HeadFraming(head) == Chunked
    requires ValidChunks(chunks) && |Data(chunks)| <= MAX_BODY_BYTES
    requires CleanLine(last) && LineSize(last) == Some(0) && ValidTrailers(trailers)
    requires short ==> ShortLines(chunks, trailers) && |last| < MAX_WAITING_SIZE_LINE
    ensures var b := ChunkedResponse(head, chunks, last, trailers);
            Outcome(Run(b, START)) == (Complete, Data(chunks)) && (short ==> NoLongLine(b, START))
  {
    ResponseParts(head, chunks, last, trailers);
    RunParts(ChunkedResponse(head, chunks, last, trailers), head, chunks, last, trailers, short);
  }

  lemma RunParts(b: seq<byte>, head: seq<byte>, chunks: seq<Chunk>, last: seq<byte>, trailers: seq<seq<byte>>,
                 short: bool)
    requires IsHead(head) && HeadFraming(head) == Chunked
    requires ValidChunks(chunks) && |Data(chunks)| <= MAX_BODY_BYTES
    requires CleanLine(last) && LineSize(last) == Some(0) && ValidTrailers(trailers)
    requires short ==> ShortLines(chunks, trailers) && |last| < MAX_WAITING_SIZE_LINE
    requires At(b, 0, head + (CRLF + CRLF)) && At(b, |head| + 4, ChunksWire(chunks))
    requires At(b, |head| + 4 + |ChunksWire(chunks)|, (last + CRLF) + (TrailersWire(trailers) + CRLF))
    ensures Outcome(Run(b, START)) == (Complete, Data(chunks)) && (short ==> NoLongLine(b, START))
  {
    var d := Behind(Core(ChunkSize, |head| + 4, 0, []), chunks);
    PassHeadAndChunks(b, head, chunks, short);
    assert d.body == Data(chunks);
    PassTail(b, d, last, trailers, short);
    Chain(b, START, d, BehindLast(d, last), short);
    LeadsRun(b, START, BehindLast(d, last), short);
  }

  function BehindLast(d: Core, last: seq<byte>): Core {
    Core(Trailers, d.offset + |last| + 2, 0, d.body)
  }

  lemma BehindLine(b: seq<byte>, at: nat, line: seq<byte>, tail: seq<byte>)
    requires at <= |b| && At(b, at, (line + CRLF) + tail)
    ensures At(b, at, line + CRLF) && at + |line| + 2 <= |b| && At(b, at + |line| + 2, tail)
  {
    AtParts(b, at, line + CRLF, tail);
  }

  /** The last size line leads to the trailers, and they and the blank line complete the response. */
  lemma PassTail(b: seq<byte>, d: Core, last: seq<byte>, trailers: seq<seq<byte>>, short: bool)
    requires d.phase == ChunkSize && d.offset <= |b| && d.remaining == 0 && |d.body| <= MAX_BODY_BYTES
    requires CleanLine(last) && LineSize(last) == Some(0) && ValidTrailers(trailers)
    requires short ==> ShortLines([], trailers) && |last| < MAX_WAITING_SIZE_LINE
    requires At(b, d.offset, (last + CRLF) + (TrailersWire(trailers) + CRLF))
    ensures Leads(b, d, BehindLast(d, last), short) && BehindLast(d, last).offset <= |b|
    ensures Run(b, BehindLast(d, last)).phase == Done && Run(b, BehindLast(d, last)).body == d.body
    ensures short ==> NoLongLine(b, BehindLast(d, last))
  {
    BehindLine(b, d.offset, last, TrailersWire(trailers) + CRLF);
    PassSizeLine(b, d, last, 0, short);
    RunTrailers(b, BehindLast(d, last), trailers);
  }

  lemma PassHeadAndChunks(b: seq<byte>, head: seq<byte>, chunks: seq<Chunk>, short: bool)
    requires IsHead(head) && HeadFraming(head) == Chunked
    requires ValidChunks(chunks) && |Data(chunks)| <= MAX_BODY_BYTES && (short ==> ShortLines(chunks, []))
    requires At(b, 0, head + (CRLF + CRLF)) && At(b, |head| + 4, ChunksWire(chunks))
    ensures Leads(b, START, Behind(Core(ChunkSize, |head| + 4, 0, []), chunks), short)
  {
    var c := Core(ChunkSize, |head| + 4, 0, []);
    PassHead(b, head, c, short);
    RunChunks(b, c, chunks, short);
    Chain(b, START, c, Behind(c, chunks), short);
  }

  lemma ResponseParts(head: seq<byte>, chunks: seq<Chunk>, last: seq<byte>, trailers: seq<seq<byte>>)
    ensures var b := ChunkedResponse(head, chunks, last, trailers);
            && At(b, 0, head + (CRLF + CRLF)) && At(b, |head| + 4, ChunksWire(chunks))
            && At(b, |head| + 4 + |ChunksWire(chunks)|, (last + CRLF) + (TrailersWire(trailers) + CRLF))
  {
    var b := ChunkedResponse(head, chunks, last, trailers);
    var h, w, t := head + (CRLF + CRLF), ChunksWire(chunks), (last + CRLF) + (TrailersWire(trailers) + CRLF);
    assert At(b, 0, b);
    AtParts(b, 0, h, w + t);
    AtParts(b, |h|, w, t);
  }

  lemma PassHead(b: seq<byte>, head: seq<byte>, c: Core, short: bool)
    requires IsHead(head) && At(b, 0, head + (CRLF + CRLF))
    requires match HeadFraming(head)
             case Chunked => c == Core(ChunkSize, |head| + 4, 0, [])
             case Fixed(n) => c == Core(if n == 0 then Done else FixedBody, |head| + 4, n, [])
             case Bad => false
    ensures Leads(b, START, c, short)
  {
    RunHead(b, head);
    assert Step(b, START) == HeadersStep(b, START) == Some(c);
    OneStep(b, START, c, short);
  }

  /** Any body of at most 65535 bytes, chunked in any way, with any extensions and trailers, and
      fed in any pieces, completes with exactly that body, as long as the lines are short. */
  lemma ChunkedBodyComesBack(head: seq<byte>, chunks: seq<Chunk>, last: seq<byte>, trailers: seq<seq<byte>>,
                             pieces: seq<seq<byte>>)
    requires IsHead(head) && HeadFraming(head) == Chunked
    requires ValidChunks(chunks) && |Data(chunks)| <= MAX_BODY_BYTES
    requires CleanLine(last) && LineSize(last) == Some(0) && ValidTrailers(trailers)
    requires ShortLines(chunks, trailers) && |last| < MAX_WAITING_SIZE_LINE
    requires Concat(pieces) == ChunkedResponse(head, chunks, last, trailers)
    ensures Outcome(FeedAll(UNFED, pieces).core) == (Complete, Data(chunks))
  {
    RunChunked(head, chunks, last, trailers, true);
    HttpSplit.SplitDoesNotMatter(pieces);
  }

  /** A body announced by its length comes back too, whatever follows it. */
  lemma FixedBodyComesBack(head: seq<byte>, body: seq<byte>, rest: seq<byte>, pieces: seq<seq<byte>>)
    requires IsHead(head) && HeadFraming(head) == Fixed(|body|) && |body| <= MAX_BODY_BYTES
    requires Concat(pieces) == (head + (CRLF + CRLF)) + (body + rest)
    ensures Outcome(FeedAll(UNFED, pieces).core) == (Complete, body)
  {
    var b := Concat(pieces);
    var h := head + (CRLF + CRLF);
    assert At(b, 0, b);
    AtParts(b, 0, h, body + rest);
    AtParts(b, |h|, body, rest);
    RunFixed(b, head, body);
    HttpSplit.SplitDoesNotMatter(pieces);
  }

  lemma RunFixed(b: seq<byte>, head: seq<byte>, body: seq<byte>)
    requires IsHead(head) && HeadFraming(head) == Fixed(|body|) && |body| <= MAX_BODY_BYTES
    requires At(b, 0, head + (CRLF + CRLF)) && At(b, |head| + 4, body)
    ensures Outcome(Run(b, START)) == (Complete, body) && NoLongLine(b, START)
  {
    var start := |head| + 4;
    var c := Core(if |body| == 0 then Done else FixedBody, start, |body|, []);
    var d := Core(Done, start + |body|, 0, body);
    PassHead(b, head, c, true);
    if body != [] {
      SliceAt(b, start, body);
      assert [] + body == body;
      assert Step(b, c) == BodyStep(b, c) == Some(d);
      OneStep(b, c, d, true);
      Chain(b, START, c, d, true);
    }
    LeadsRun(b, START, d, true);
    assert Run(b, d) == d && NoLongLine(b, d);
  }

  // ---- There is such an encoding ------------------------------------------------------------

  function HexChar(d: nat): byte
    requires d < 16
  {
    if d < 10 then (48 + d) as byte else (87 + d) as byte
  }

  /** A size as a size line in its plainest form. */
  function HexLine(n: nat): (line: seq<byte>)
    ensures line != []
  {
    if n < 16 then [HexChar(n)] else HexLine(n / 16) + [HexChar(n % 16)]
  }

  lemma {:induction false} HexLineDigits(n: nat)
    ensures forall i :: 0 <= i < |HexLine(n)| ==> HexDigit(HexLine(n)[i]).Some?
    ensures NumberOf(HexLine(n), 16) == n
  {
    if n >= 16 {
      HexLineDigits(n / 16);
      assert HexLine(n)[..|HexLine(n)| - 1] == HexLine(n / 16);
    } else {
      assert HexLine(n)[..0] == [];
      assert NumberOf([], 16) == 0;
    }
  }

  lemma {:induction false} HexLineLength(n: nat, digits: nat, bound: nat)
    requires digits >= 1 && n < bound && bound == Power(digits)
    ensures |HexLine(n)| <= digits
    decreases digits
  {
    if n >= 16 {
      assert bound == 16 * Power(digits - 1);
      HexLineLength(n / 16, digits - 1, Power(digits - 1));
    }
  }

  function Power(digits: nat): nat {
    if digits == 0 then 1 else 16 * Power(digits - 1)
  }

  lemma TrimmedAlready(line: seq<byte>)
    requires line != [] && !IsBlank(line[0]) && !IsBlank(line[|line| - 1])
    ensures Trimmed(line) == line
  {
  }

  /** The plain size line of any body length is read back as that length. */
  lemma HexLineReadsBack(n: nat)
    requires n <= MAX_BODY_BYTES
    ensures CleanLine(HexLine(n)) && LineSize(HexLine(n)) == Some(n) && |HexLine(n)| < MAX_WAITING_SIZE_LINE
  {
    var line := HexLine(n);
    HexLineDigits(n);
    assert Power(1) == 16 && Power(2) == 256 && Power(3) == 4096 && Power(4) == 65536;
    HexLineLength(n, 4, 65536);
    DigitsAreClean(line);
  }

  /** Hexadecimal digits hold no line end, no blanks and no extension. */
  lemma DigitsAreClean(line: seq<byte>)
    requires line != [] && AllDigits(line, 16)
    ensures CleanLine(line) && line[..IndexOf(line, SEMICOLON, 0)] == line && Trimmed(line) == line
  {
    assert forall i :: 0 <= i < |line| ==> DigitOf(line[i], 16).Some?;
    assert CleanLine(line) by {
      forall i | 0 <= i < |line| ensures !CrlfAt(line + CRLF, i) { assert (line + CRLF)[i] == line[i]; }
    }
    var semi := IndexOf(line, SEMICOLON, 0);
    assert semi < |line| ==> DigitOf(line[semi], 16).Some?;
    TrimmedAlready(line);
  }
}
