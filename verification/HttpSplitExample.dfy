/** Splitting can matter: a response that completes when fed at once and fails when it is not. */
module HttpSplitExample {
  import opened Bytes
  import opened HttpText
  import opened HttpHead
  import opened HttpCore
  import opened HttpEncode
  import opened HttpSplit

  /** A size line of zero too long to wait for, right behind the head. */
  lemma LongLineIsMet(b: seq<byte>, head: seq<byte>, last: seq<byte>)
    requires IsHead(head) && HeadFraming(head) == Chunked && CleanLine(last) && |last| >= MAX_WAITING_SIZE_LINE
    requires At(b, 0, head + (CRLF + CRLF)) && At(b, |head| + 4, last + CRLF)
    ensures !NoLongLine(b, START)
  {
    var c := Core(ChunkSize, |head| + 4, 0, []);
    RunHead(b, head);
    assert Step(b, START) == Some(c);
    LineEndsAt(b, c.offset, last);
    assert LongLine(b, c);
  }

  lemma LongLineCompletes(head: seq<byte>, last: seq<byte>)
    requires IsHead(head) && HeadFraming(head) == Chunked
    requires CleanLine(last) && LineSize(last) == Some(0) && |last| >= MAX_WAITING_SIZE_LINE
    ensures var b := ChunkedResponse(head, [], last, []);
            Outcome(Run(b, START)) == (Complete, []) && !NoLongLine(b, START)
  {
    var b := ChunkedResponse(head, [], last, []);
    RunChunked(head, [], last, [], false);
    ResponseParts(head, [], last, []);
    AtParts(b, |head| + 4, last + CRLF, TrailersWire([]) + CRLF);
    LongLineIsMet(b, head, last);
  }

  /** Such a response completes at once, and fails for some way of feeding it. */
  lemma LongLineSplits(head: seq<byte>, last: seq<byte>)
    requires IsHead(head) && HeadFraming(head) == Chunked
    requires CleanLine(last) && LineSize(last) == Some(0) && |last| >= MAX_WAITING_SIZE_LINE
    ensures var b := ChunkedResponse(head, [], last, []);
            && Outcome(Run(b, START)) == (Complete, [])
            && exists pieces :: Concat(pieces) == b && FeedAll(UNFED, pieces).core == FAILED
  {
    var b := ChunkedResponse(head, [], last, []);
    LongLineCompletes(head, last);
    AllSplitsAgreeIff(b);
    var pieces :| Concat(pieces) == b && Outcome(FeedAll(UNFED, pieces).core) != Outcome(Run(b, START));
    StartWaits();
    FeedingPieces(UNFED, pieces);
    assert UNFED.buffer + Concat(pieces) == b;
  }

  // ---- Such a response ------------------------------------------------------------------------

  const STATUS := Ascii("HTTP/1.1 200")
  const FIELD := Ascii("transfer-encoding:chunked")

  function Head(): seq<byte> {
    STATUS + CRLF + FIELD
  }

  function Zeros(): seq<byte> {
    seq(128, _ => 48)
  }

  lemma {:induction false} IndexIs(s: seq<byte>, c: byte, from: nat, i: nat)
    requires from <= i < |s| && s[i] == c && forall j :: from <= j < i ==> s[j] != c
    ensures IndexOf(s, c, from) == i
    decreases i - from
  {
    if from < i { IndexIs(s, c, from + 1, i); }
  }

  lemma {:induction false} LowerAlready(s: seq<byte>)
    requires forall i :: 0 <= i < |s| ==> !(65 <= s[i] <= 90)
    ensures Lower(s) == s
  {
    if s != [] { LowerAlready(s[1..]); }
  }

  lemma {:induction false} ZerosAreZero(n: nat)
    ensures var s: seq<byte> := seq(n, _ => 48);
            AllDigits(s, 16) && NumberOf(s, 16) == 0
  {
    var s: seq<byte> := seq(n, _ => 48);
    assert AllDigits(s, 16);
    if n > 0 {
      ZerosAreZero(n - 1);
      assert s[..n - 1] == seq(n - 1, _ => 48);
    }
  }

  lemma ZerosAreALine()
    ensures CleanLine(Zeros()) && LineSize(Zeros()) == Some(0) && |Zeros()| == 128
  {
    ZerosAreZero(128);
    DigitsAreClean(Zeros());
  }

  lemma NameReads()
    ensures Lower(Trimmed(TRANSFER_ENCODING)) == TRANSFER_ENCODING
  {
    var name := TRANSFER_ENCODING;
    TrimmedAlready(name);
    assert name == [116, 114, 97, 110, 115, 102, 101, 114, 45, 101, 110, 99, 111, 100, 105, 110, 103];
    LowerAlready(name);
  }

  lemma ValueReads()
    ensures Lower(CHUNKED) == Trimmed(CHUNKED) == CHUNKED != []
  {
    TrimmedAlready(CHUNKED);
    assert CHUNKED == [99, 104, 117, 110, 107, 101, 100];
    LowerAlready(CHUNKED);
  }

  lemma FieldSplits()
    ensures |FIELD| == 25 && IndexOf(FIELD, COLON, 0) == 17 && FIELD[..17] == TRANSFER_ENCODING
    ensures FIELD[18..] == CHUNKED
  {
    assert FIELD[17] == COLON;
    IndexIs(FIELD, COLON, 0, 17);
  }

  lemma FieldReads(line: seq<byte>)
    requires |line| > 17 && IndexOf(line, COLON, 0) == 17 && line[..17] == TRANSFER_ENCODING && line[18..] == CHUNKED
    requires Lower(Trimmed(TRANSFER_ENCODING)) == TRANSFER_ENCODING && Trimmed(CHUNKED) == CHUNKED
    ensures ReadField(line) == Some(Field(TRANSFER_ENCODING, CHUNKED))
  {
  }

  lemma CodingIsAbsorbed(line: seq<byte>, value: seq<byte>)
    requires ReadField(line) == Some(Field(TRANSFER_ENCODING, value)) && Lower(value) == value
    ensures Absorb(NO_FIELDS, line) == Fields(None, value)
  {
    assert |TRANSFER_ENCODING| != |CONTENT_LENGTH|;
  }

  lemma StatusReads()
    ensures FirstCrlf(Head(), 0) == Some(12) && Head()[..12] == STATUS && StatusIsOk(STATUS)
  {
    var head := Head();
    assert CrlfAt(head, 12);
    assert NoCrlf(head, 0, 12);
    CrlfResumes(head, 0, 12);
    assert head[..12] == STATUS;
    IndexIs(STATUS, SPACE, 0, 8);
    assert STATUS[9..12] == OK_STATUS;
  }

  lemma FieldInHead()
    ensures |Head()| == 39 && Head()[14..39] == FIELD
  {
    var before := STATUS + CRLF;
    assert |before| == 14 && Head() == before + FIELD;
  }

  lemma OneField()
    ensures FirstCrlf(Head(), 14).None? && |Head()| == 39 && Head()[14..39] == FIELD
  {
    FieldInHead();
    forall i | 14 <= i < 39 ensures Head()[i] != CR { assert Head()[i] == FIELD[i - 14]; }
    assert NoCrlf(Head(), 14, 39);
    CrlfResumes(Head(), 14, 39);
  }

  lemma FieldIsAbsorbed()
    ensures Absorb(NO_FIELDS, FIELD) == Fields(None, CHUNKED) && BodyFraming(Fields(None, CHUNKED)) == Chunked
  {
    NameReads();
    ValueReads();
    FieldSplits();
    FieldReads(FIELD);
    CodingIsAbsorbed(FIELD, CHUNKED);
  }

  lemma HeadIsChunked()
    ensures HeadFraming(Head()) == Chunked
  {
    var head := Head();
    StatusReads();
    assert HTTP_SLASH <= head;
    OneField();
    FieldIsAbsorbed();
    assert LineEnd(head, 14) == (39, 39);
    assert FieldsFrom(head, 14, NO_FIELDS) == FieldsFrom(head, 39, Fields(None, CHUNKED));
  }

  lemma HeadIsHead()
    ensures IsHead(Head())
  {
    var w := Head() + (CRLF + CRLF);
    forall i | 0 <= i < |Head()| ensures !BlankLineAt(w, i) {
      assert i == 12 ==> w[14] == FIELD[0];
    }
  }

  lemma FedAtOnce(b: seq<byte>)
    ensures FeedAll(UNFED, [b]).core == Run(b, START)
  {
    assert UNFED.buffer + b == b && [b][1..] == [];
  }

  /** A response of 175 bytes: fed at once it completes with an empty body, and there is a way of
      feeding it that fails. */
  lemma SplittingCanMatter()
    ensures exists b, pieces ::
              && |b| == 175 && Concat(pieces) == b && FeedAll(UNFED, pieces).core == FAILED
              && Outcome(FeedAll(UNFED, [b]).core) == (Complete, [])
  {
    var b := ChunkedResponse(Head(), [], Zeros(), []);
    HeadIsChunked();
    HeadIsHead();
    ZerosAreALine();
    LongLineSplits(Head(), Zeros());
    FedAtOnce(b);
  }
}
