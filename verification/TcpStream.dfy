/** DNS messages on a TCP stream (src/dns/tcp_session.cpp): the encoder and the reader that puts
    messages back together from bytes that come in any pieces. Section 4.2.2 of RFC 1035. */
module TcpStream {
  import opened Bytes

  const MAX_MESSAGE := 65535
  const MAX_FRAMED := 65537

  function Prefix(n: nat): seq<byte>
    requires n <= MAX_MESSAGE
  {
    [(n / 256) as byte, (n % 256) as byte]
  }

  /** The message behind its length; nothing for an empty one or one too long to describe. */
  function Framed(message: seq<byte>): (framed: seq<byte>)
    ensures framed == [] <==> !(1 <= |message| <= MAX_MESSAGE)
  {
    if 1 <= |message| <= MAX_MESSAGE then Prefix(|message|) + message else []
  }

  method EncodeTcpMessage(message: seq<byte>) returns (framed: seq<byte>)
    ensures framed == Framed(message)
  {
    if |message| == 0 || |message| > MAX_MESSAGE { return []; }
    framed := [];
    framed := framed + [(|message| / 256) as byte];
    framed := framed + [(|message| % 256) as byte];
    framed := framed + message;
  }

  /** What the front of the unread bytes amounts to. */
  datatype Front = Partial | Whole(length: nat) | Bad

  function FrontOf(unread: seq<byte>): Front {
    if |unread| < 2 then Partial
    else
      var declared := unread[0] as nat * 256 + unread[1] as nat;
      if declared == 0 then Bad
      else if |unread| < declared + 2 then Partial
      else Whole(declared)
  }

  datatype StreamState = Incomplete | Ready | Broken

  function StateOf(front: Front): StreamState {
    match front
    case Partial => Incomplete
    case Whole(_) => Ready
    case Bad => Broken
  }

  /** What is done with a reader, and what comes of it: the bytes appended since the last overflow,
      the messages taken since then, and the unread rest. */
  datatype Use = AppendU(data: seq<byte>) | TakeU

  datatype Stream = Stream(appended: seq<byte>, taken: seq<seq<byte>>, unread: seq<byte>)

  const FRESH := Stream([], [], [])

  /** One call, as the contracts of Append and TakeMessage say. */
  function Used(s: Stream, use: Use): Stream {
    match use
    case AppendU(data) =>
      if |s.unread| + |data| > MAX_FRAMED then FRESH
      else s.(appended := s.appended + data, unread := s.unread + data)
    case TakeU =>
      var front := FrontOf(s.unread);
      if front.Whole? then s.(taken := s.taken + [s.unread[2..front.length + 2]],
                              unread := s.unread[front.length + 2..]) else s
  }

  class TcpSessionReader {
    var buffer: seq<byte>
    var pos: nat
    var readyLen: nat
    ghost var history: Stream

    ghost predicate Valid()
      reads this
    {
      && pos <= |buffer| <= MAX_FRAMED && history.unread == buffer[pos..]
      && readyLen == (match FrontOf(buffer[pos..]) case Whole(n) => n case Partial => 0 case Bad => 0)
    }

    ghost function Unread(): seq<byte>
      reads this
      requires Valid()
    {
      buffer[pos..]
    }

    constructor ()
      ensures Valid() && history == FRESH
    {
      buffer, pos, readyLen, history := [], 0, 0, FRESH;
    }

    method Parse() returns (state: StreamState)
      requires pos <= |buffer| <= MAX_FRAMED && history.unread == buffer[pos..]
      modifies this`readyLen
      ensures Valid() && state == StateOf(FrontOf(Unread()))
    {
      readyLen := 0;
      var available := |buffer| - pos;
      if available < 2 { return Incomplete; }
      var declared := buffer[pos] as nat * 256 + buffer[pos + 1] as nat;
      if declared == 0 { return Broken; }
      if declared > MAX_MESSAGE { return Broken; }
      if available < declared + 2 { return Incomplete; }
      readyLen := declared;
      return Ready;
    }

    method Compact()
      requires pos <= |buffer|
      modifies this`buffer, this`pos
      ensures pos == 0 && buffer == old(buffer[pos..])
    {
      if pos == 0 { return; }
      if pos >= |buffer| { buffer := []; } else { buffer := buffer[pos..]; }
      pos := 0;
    }

    /** The bytes are added unless they overflow the bound; then everything unread is dropped. */
    method Append(data: seq<byte>) returns (state: StreamState)
      requires Valid()
      modifies this
      ensures Valid()
      ensures history == Used(old(history), AppendU(data))
      ensures state == if |old(Unread())| + |data| > MAX_FRAMED then Broken else StateOf(FrontOf(Unread()))
    {
      if readyLen == 0 && |buffer| - pos > MAX_FRAMED { return Broken; }
      if |data| > 0 {
        Compact();
        if |data| > MAX_FRAMED - |buffer| {
          buffer, pos, readyLen, history := [], 0, 0, FRESH;
          return Broken;
        }
        buffer := buffer + data;
      }
      history := Used(history, AppendU(data));
      state := Parse();
    }

    /** The message at the front, if a whole one is there; its frame leaves the stream. */
    method TakeMessage() returns (message: seq<byte>)
      requires Valid()
      modifies this
      ensures Valid()
      ensures history == Used(old(history), TakeU)
      ensures FrontOf(old(Unread())).Whole? ==> history.taken == old(history.taken) + [message]
      ensures !FrontOf(old(Unread())).Whole? ==> message == []
    {
      if readyLen == 0 { return []; }
      message := buffer[pos + 2..pos + 2 + readyLen];
      assert message == buffer[pos..][2..readyLen + 2];
      history := Used(history, TakeU);
      pos := pos + 2 + readyLen;
      var _ := Parse();
    }

    method Clear()
      modifies this
      ensures Valid() && history == FRESH
    {
      buffer, pos, readyLen, history := [], 0, 0, FRESH;
    }
  }

  lemma FrameAtFront(unread: seq<byte>)
    requires FrontOf(unread).Whole?
    ensures var n := FrontOf(unread).length;
            && 1 <= n <= MAX_MESSAGE && n + 2 <= |unread|
            && Framed(unread[2..n + 2]) + unread[n + 2..] == unread
  {
    var n := FrontOf(unread).length;
    assert Prefix(n) == unread[..2];
    assert unread == unread[..2] + unread[2..n + 2] + unread[n + 2..];
  }

  // ---- Any use of a reader --------------------------------------------------------------------

  function UsedAll(s: Stream, uses: seq<Use>): Stream
    decreases |uses|
  {
    if uses == [] then s else UsedAll(Used(s, uses[0]), uses[1..])
  }

  function Frames(messages: seq<seq<byte>>): seq<byte> {
    if messages == [] then [] else Framed(messages[0]) + Frames(messages[1..])
  }

  lemma {:induction false} FramesThen(messages: seq<seq<byte>>, last: seq<byte>)
    ensures Frames(messages + [last]) == Frames(messages) + Framed(last)
  {
    if messages == [] {
      assert messages + [last] == [last];
      assert Frames([last]) == Framed(last) + Frames([]);
    } else {
      assert (messages + [last])[1..] == messages[1..] + [last];
      FramesThen(messages[1..], last);
    }
  }

  ghost predicate Conserved(s: Stream) {
    && s.appended == Frames(s.taken) + s.unread
    && |s.unread| <= MAX_FRAMED
    && forall m :: m in s.taken ==> 1 <= |m| <= MAX_MESSAGE
  }

  lemma Regroup(a: seq<byte>, b: seq<byte>, c: seq<byte>)
    ensures a + (b + c) == (a + b) + c
  {
  }

  lemma AppendConserves(s: Stream, data: seq<byte>)
    requires Conserved(s)
    ensures Conserved(Used(s, AppendU(data)))
  {
    Regroup(Frames(s.taken), s.unread, data);
  }

  lemma TakeConserves(s: Stream)
    requires Conserved(s)
    ensures Conserved(Used(s, TakeU))
  {
    if FrontOf(s.unread).Whole? {
      var n := FrontOf(s.unread).length;
      FrameAtFront(s.unread);
      FramesThen(s.taken, s.unread[2..n + 2]);
      Regroup(Frames(s.taken), Framed(s.unread[2..n + 2]), s.unread[n + 2..]);
    }
  }

  /** Over any use of a reader, the frames of the messages taken followed by the unread bytes are all
      the bytes appended since the last overflow, and the unread bytes stay within 65537. */
  lemma {:induction false} NothingLostOrMadeUp(s: Stream, uses: seq<Use>)
    requires Conserved(s)
    ensures Conserved(UsedAll(s, uses)) && |UsedAll(s, uses).unread| <= 65537
    decreases |uses|
  {
    if uses != [] {
      if uses[0].AppendU? { AppendConserves(s, uses[0].data); } else { TakeConserves(s); }
      NothingLostOrMadeUp(Used(s, uses[0]), uses[1..]);
    }
  }

  /** The front by its bytes: a length of zero is bad as soon as both its bytes are there, and a message is
      whole when as many bytes as its length says follow. */
  lemma FrontIs(unread: seq<byte>)
    ensures FrontOf(unread).Bad? <==> |unread| >= 2 && unread[0] == 0 && unread[1] == 0
    ensures forall n: nat :: FrontOf(unread) == Whole(n) <==>
              2 <= |unread| && 1 <= n && n + 2 <= |unread| && unread[0] as nat * 256 + unread[1] as nat == n
  {
  }

  /** Bytes that bring the unread ones over 65537 empty the reader, and no others do. */
  lemma OverflowIff(s: Stream, data: seq<byte>)
    ensures |s.unread| + |data| > 65537 ==> Used(s, AppendU(data)) == Stream([], [], [])
    ensures |s.unread| + |data| <= 65537 ==> Used(s, AppendU(data)).unread == s.unread + data
  {
  }

  predicate Fits(s: Stream, use: Use) {
    use.AppendU? ==> |s.unread| + |use.data| <= MAX_FRAMED
  }

  predicate NeverOverflows(s: Stream, uses: seq<Use>)
    decreases |uses|
  {
    uses == [] || (Fits(s, uses[0]) && NeverOverflows(Used(s, uses[0]), uses[1..]))
  }

  function AllBytes(uses: seq<Use>): seq<byte> {
    if uses == [] then [] else (if uses[0].AppendU? then uses[0].data else []) + AllBytes(uses[1..])
  }

  lemma {:induction false} AllIsAppended(s: Stream, uses: seq<Use>)
    requires NeverOverflows(s, uses)
    ensures UsedAll(s, uses).appended == s.appended + AllBytes(uses)
    decreases |uses|
  {
    if uses != [] {
      AllIsAppended(Used(s, uses[0]), uses[1..]);
      Regroup(s.appended, if uses[0].AppendU? then uses[0].data else [], AllBytes(uses[1..]));
    }
  }

  // ---- Round trip -----------------------------------------------------------------------------

  predicate Sendable(messages: seq<seq<byte>>) {
    forall m :: m in messages ==> 1 <= |m| <= MAX_MESSAGE
  }

  lemma FramedSplits(m: seq<byte>, rest: seq<byte>)
    requires 1 <= |m| <= MAX_MESSAGE
    ensures var all := Framed(m) + rest;
            FrontOf(all) == Whole(|m|) && all[2..|m| + 2] == m && all[|m| + 2..] == rest
  {
  }

  lemma FirstTakenIsFirstSent(sent: seq<seq<byte>>, taken: seq<seq<byte>>, unread: seq<byte>)
    requires Sendable(sent) && Sendable(taken) && taken != [] && Frames(sent) == Frames(taken) + unread
    ensures sent != [] && taken[0] == sent[0] && Frames(sent[1..]) == Frames(taken[1..]) + unread
  {
    Regroup(Framed(taken[0]), Frames(taken[1..]), unread);
    FramedSplits(taken[0], Frames(taken[1..]) + unread);
    assert sent != [];
    FramedSplits(sent[0], Frames(sent[1..]));
  }

  /** What was taken off the frames of `sent` is the first of them, in order. */
  lemma {:induction false} TakenIsSent(sent: seq<seq<byte>>, taken: seq<seq<byte>>, unread: seq<byte>)
    requires Sendable(sent) && Sendable(taken) && Frames(sent) == Frames(taken) + unread
    ensures taken <= sent && unread == Frames(sent[|taken|..])
  {
    if taken == [] {
      assert sent[0..] == sent;
    } else {
      FirstTakenIsFirstSent(sent, taken, unread);
      TakenIsSent(sent[1..], taken[1..], unread);
      assert taken == [taken[0]] + taken[1..] && sent == [sent[0]] + sent[1..];
      assert sent[1..][|taken| - 1..] == sent[|taken|..];
    }
  }

  /** Messages sent framed come back whole and in order however the bytes are cut up and whenever
      messages are taken: those taken are the first ones sent, and when no whole message is left at
      the front, all of them. */
  lemma SentComesBack(sent: seq<seq<byte>>, uses: seq<Use>)
    requires Sendable(sent) && NeverOverflows(FRESH, uses) && AllBytes(uses) == Frames(sent)
    ensures var s := UsedAll(FRESH, uses);
            && s.taken <= sent && s.unread == Frames(sent[|s.taken|..])
            && (!FrontOf(s.unread).Whole? ==> s.taken == sent)
  {
    var s := UsedAll(FRESH, uses);
    NothingLostOrMadeUp(FRESH, uses);
    AllIsAppended(FRESH, uses);
    assert FRESH.appended + AllBytes(uses) == AllBytes(uses);
    TakenIsSent(sent, s.taken, s.unread);
    if |s.taken| < |sent| {
      var left := sent[|s.taken|..];
      FramedSplits(left[0], Frames(left[1..]));
    }
  }

  // ---- A broken stream ------------------------------------------------------------------------

  /** A zero length at the front stays there, and nothing is taken, while the buffer does not overflow. */
  lemma {:induction false} BrokenStays(s: Stream, uses: seq<Use>)
    requires FrontOf(s.unread).Bad? && NeverOverflows(s, uses)
    ensures FrontOf(UsedAll(s, uses).unread).Bad? && UsedAll(s, uses).taken == s.taken
    decreases |uses|
  {
    if uses != [] { BrokenStays(Used(s, uses[0]), uses[1..]); }
  }

  /** Once broken is not always broken: a message can be read again after `data` exactly if `data`
      overflowed the buffer, which empties it. */
  lemma BrokenRecoversIff(s: Stream, data: seq<byte>)
    requires FrontOf(s.unread).Bad?
    ensures (exists more :: FrontOf(Used(Used(s, AppendU(data)), AppendU(more)).unread).Whole?) <==>
            |s.unread| + |data| > MAX_FRAMED
  {
    if |s.unread| + |data| > MAX_FRAMED {
      var more := Framed([0]);
      FramedSplits([0], []);
      assert more + [] == more && [] + more == more;
      assert FrontOf(Used(FRESH, AppendU(more)).unread).Whole?;
    }
  }
}
