/** The response parser as a function of the bytes it has been fed.

    One step is one phase of HttpResponseParser::Process; `Run` takes steps until the parser
    has to wait or has finished. Nothing here remembers where an earlier search stopped. */
module HttpCore {
  import opened Bytes
  import opened HttpText
  import opened HttpHead

  const MAX_HEADER_BYTES: nat := 65536
  const MAX_WAITING_SIZE_LINE: nat := 128

  datatype Phase = Headers | FixedBody | ChunkSize | ChunkData | ChunkDataCrlf | Trailers | Done | Failed

  datatype Result = NeedMore | Complete | Error

  datatype Core = Core(phase: Phase, offset: nat, remaining: nat, body: seq<byte>)

  const START := Core(Headers, 0, 0, [])

  /** Failing drops the body; where the parser stood no longer matters. */
  const FAILED := Core(Failed, 0, 0, [])

  function ResultOf(phase: Phase): Result {
    if phase == Done then Complete else if phase == Failed then Error else NeedMore
  }

  /** What a caller can see. */
  function Outcome(c: Core): (Result, seq<byte>) {
    (ResultOf(c.phase), c.body)
  }

  /** The chunk size a chunk-size line announces, extensions and blanks aside. */
  function LineSize(line: seq<byte>): Option<nat> {
    Number(Trimmed(line[..IndexOf(line, SEMICOLON, 0)]), 16)
  }

  /** At the start of a body framed this way. */
  function Framed(c: Core, bodyStart: nat, framing: Framing): Core
    requires !framing.Bad?
  {
    match framing
    case Chunked => c.(phase := ChunkSize, offset := bodyStart)
    case Fixed(n) => c.(phase := if n == 0 then Done else FixedBody, offset := bodyStart, remaining := n)
  }

  function HeadersStep(b: seq<byte>, c: Core): Option<Core> {
    match FirstBlankLine(b, 0)
    case None => if |b| > MAX_HEADER_BYTES then Some(FAILED) else None
    case Some(e) =>
      if e + 4 > MAX_HEADER_BYTES then Some(FAILED)
      else
        var framing := HeadFraming(b[..e]);
        Some(if framing.Bad? then FAILED else Framed(c, e + 4, framing))
  }

  function BodyStep(b: seq<byte>, c: Core): Option<Core>
    requires c.offset <= |b|
  {
    var take := if |b| - c.offset < c.remaining then |b| - c.offset else c.remaining;
    if |c.body| + take > MAX_BODY_BYTES then Some(FAILED)
    else if take == 0 && c.remaining != 0 then None
    else Some(Core(if take < c.remaining then c.phase else if c.phase == FixedBody then Done else ChunkDataCrlf,
                   c.offset + take, c.remaining - take, c.body + b[c.offset..c.offset + take]))
  }

  function SizeStep(b: seq<byte>, c: Core): Option<Core>
    requires c.offset <= |b|
  {
    match FirstCrlf(b, c.offset)
    case None => if |b| - c.offset > MAX_WAITING_SIZE_LINE then Some(FAILED) else None
    case Some(e) =>
      var size := LineSize(b[c.offset..e]);
      if size.None? || |c.body| + size.value > MAX_BODY_BYTES then Some(FAILED)
      else Some(c.(phase := if size.value == 0 then Trailers else ChunkData, offset := e + 2, remaining := size.value))
  }

  function CrlfStep(b: seq<byte>, c: Core): Option<Core>
    requires c.offset <= |b|
  {
    if |b| - c.offset < 2 then None
    else if !CrlfAt(b, c.offset) then Some(FAILED)
    else Some(c.(phase := ChunkSize, offset := c.offset + 2))
  }

  function TrailerStep(b: seq<byte>, c: Core): Option<Core>
    requires c.offset <= |b|
  {
    match FirstCrlf(b, c.offset)
    case None => if |b| - c.offset > MAX_HEADER_BYTES then Some(FAILED) else None
    case Some(e) =>
      if e == c.offset then Some(c.(phase := Done, offset := e + 2))
      else if COLON in b[c.offset..e] then Some(c.(offset := e + 2))
      else Some(FAILED)
  }

  /** One phase's work on the bytes there are; None when it has to wait, or has finished. */
  function Step(b: seq<byte>, c: Core): (r: Option<Core>)
    requires c.offset <= |b|
    ensures r.Some? ==> r.value.offset <= |b| && (r.value == FAILED || c.phase == Headers || c.offset <= r.value.offset)
  {
    match c.phase
    case Headers => HeadersStep(b, c)
    case FixedBody => BodyStep(b, c)
    case ChunkSize => SizeStep(b, c)
    case ChunkData => BodyStep(b, c)
    case ChunkDataCrlf => CrlfStep(b, c)
    case Trailers => TrailerStep(b, c)
    case Done => None
    case Failed => None
  }

  function Stage(phase: Phase): nat {
    if phase == Headers then 2 else if phase == Failed then 0 else 1
  }

  function Rank(phase: Phase): nat {
    match phase
    case FixedBody => 2
    case ChunkData => 2
    case Done => 0
    case _ => 1
  }

  /** Steps until there is none to take. Each consumes bytes or moves on to a later phase. */
  function Run(b: seq<byte>, c: Core): (r: Core)
    requires c.offset <= |b|
    ensures r.offset <= |b| && Step(b, r).None?
    decreases Stage(c.phase), |b| - c.offset, Rank(c.phase)
  {
    match Step(b, c)
    case None => c
    case Some(c') => Run(b, c')
  }

  /** This step finishes a line longer than the program lets a line wait for its end: a chunk
      size line over 127 bytes, or a trailer line over 65535. */
  predicate LongLine(b: seq<byte>, c: Core)
    requires c.offset <= |b|
  {
    || (c.phase == ChunkSize && FirstCrlf(b, c.offset).Some? &&
        FirstCrlf(b, c.offset).value - c.offset >= MAX_WAITING_SIZE_LINE)
    || (c.phase == Trailers && FirstCrlf(b, c.offset).Some? &&
        FirstCrlf(b, c.offset).value - c.offset >= MAX_HEADER_BYTES)
  }

  /** The run over `b` from `c` finishes no such line. */
  predicate NoLongLine(b: seq<byte>, c: Core)
    requires c.offset <= |b|
    decreases Stage(c.phase), |b| - c.offset, Rank(c.phase)
  {
    !LongLine(b, c) && match Step(b, c)
      case None => true
      case Some(c') => NoLongLine(b, c')
  }

  // ---- Feeding piece by piece ----------------------------------------------------------

  /** The parser between two calls: the bytes it took in and where it stands. */
  datatype Fed = Fed(buffer: seq<byte>, core: Core)

  const UNFED := Fed([], START)

  /** One call of Feed. A parser that has finished takes nothing in. */
  function FeedOne(p: Fed, piece: seq<byte>): Fed
    requires p.core.offset <= |p.buffer|
  {
    if ResultOf(p.core.phase) != NeedMore then p
    else Fed(p.buffer + piece, Run(p.buffer + piece, p.core))
  }

  function FeedAll(p: Fed, pieces: seq<seq<byte>>): Fed
    requires p.core.offset <= |p.buffer|
    decreases |pieces|
  {
    if pieces == [] then p else FeedAll(FeedOne(p, pieces[0]), pieces[1..])
  }

  function Concat(pieces: seq<seq<byte>>): seq<byte> {
    if pieces == [] then [] else pieces[0] + Concat(pieces[1..])
  }
}
