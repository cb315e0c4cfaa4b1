/** Which responses are accepted, said of their bytes (src/dns/http_response.cpp:138-207): only status
    200, and only a body framed by one length or by chunks. */
module HttpAccept {
  import opened Bytes
  import opened HttpText
  import opened HttpHead
  import opened HttpCore
  import opened HttpSplit

  // ---- The status line ------------------------------------------------------------------------

  lemma {:induction false} IndexIs(s: seq<byte>, c: byte, from: nat, i: nat)
    requires from <= i < |s| && s[i] == c && forall k :: from <= k < i ==> s[k] != c
    ensures IndexOf(s, c, from) == i
    decreases i - from
  {
    if from < i { IndexIs(s, c, from + 1, i); }
  }

  /** A head that is accepted begins with HTTP/, and the three bytes behind its first space are 200,
      followed by another space or the end of the line. */
  lemma AcceptedIsOk(head: seq<byte>, p: nat)
    requires !HeadFraming(head).Bad?
    requires p <= |head| && (forall k :: 0 <= k < p ==> head[k] != 32) && (p < |head| ==> head[p] == 32)
    ensures 5 <= p && head[..5] == [72, 84, 84, 80, 47]
    ensures p + 4 < |head| && head[p + 1..p + 4] == [50, 48, 48]
    ensures head[p + 4] == 32 || (p + 6 <= |head| && head[p + 4..p + 6] == [13, 10])
  {
    assert HTTP_SLASH == [72, 84, 84, 80, 47];
    assert OK_STATUS == [50, 48, 48];
    var e := FirstCrlf(head, 0).value;
    var status := head[..e];
    assert HTTP_SLASH <= head && StatusIsOk(status);
    var space := IndexOf(status, SPACE, 0);
    if p < e { IndexIs(status, SPACE, 0, p); }
    assert space == p;
    assert head[p + 1..p + 4] == status[p + 1..p + 4];
    assert forall k :: 0 <= k < 5 ==> head[k] == HTTP_SLASH[k];
    if e == p + 4 { assert head[p + 4..p + 6] == [13, 10]; }
  }

  /** Whatever follows it, a status line with another code is refused. */
  lemma OtherStatusIsBad(version: seq<byte>, code: seq<byte>, rest: seq<byte>, head: seq<byte>)
    requires 32 !in version && |code| == 3
    requires head <= [72, 84, 84, 80, 47] + version + [32] + code + rest
    ensures !HeadFraming(head).Bad? ==> code == [50, 48, 48]
  {
    if !HeadFraming(head).Bad? {
      var all: seq<byte> := [72, 84, 84, 80, 47] + version + [32] + code + rest;
      var p := 5 + |version|;
      assert forall k :: 0 <= k < p ==> all[k] != 32 by {
        forall k | 0 <= k < p ensures all[k] != 32 { if k >= 5 { assert all[k] == version[k - 5]; } }
      }
      assert all[p] == 32 && all[p + 1..p + 4] == code;
      var q := if p <= |head| then p else |head|;
      AcceptedIsOk(head, q);
      assert head[p + 1..p + 4] == all[p + 1..p + 4];
    }
  }

  // ---- However it is split --------------------------------------------------------------------

  /** Bytes with a whole head that is not accepted fail for every way of feeding them, and leave no body. */
  lemma BadHeadFails(b: seq<byte>, pieces: seq<seq<byte>>)
    requires Concat(pieces) == b && FirstBlankLine(b, 0).Some? && HeadFraming(b[..FirstBlankLine(b, 0).value]).Bad?
    ensures Outcome(FeedAll(UNFED, pieces).core) == (Error, [])
  {
    assert Step(b, START) == Some(FAILED);
    assert Run(b, START) == Run(b, FAILED) == FAILED;
    AllSplitsAgreeIff(b);
  }

  /** So a response with another status fails, however its bytes are split. */
  lemma OtherStatusFails(version: seq<byte>, code: seq<byte>, rest: seq<byte>, end: nat, pieces: seq<seq<byte>>)
    requires 32 !in version && |code| == 3 && code != [50, 48, 48]
    requires Concat(pieces) == [72, 84, 84, 80, 47] + version + [32] + code + rest
    requires end + 4 <= |Concat(pieces)| && Concat(pieces)[end..end + 4] == [13, 10, 13, 10]
    ensures Outcome(FeedAll(UNFED, pieces).core) == (Error, [])
  {
    var b := Concat(pieces);
    assert BlankLineAt(b, end) by {
      var w := b[end..end + 4];
      assert w[0] == b[end] && w[1] == b[end + 1] && w[2] == b[end + 2] && w[3] == b[end + 3];
    }
    FirstBlankLineIsFirst(b, 0);
    OtherStatusIsBad(version, code, rest, b[..FirstBlankLine(b, 0).value]);
    BadHeadFails(b, pieces);
  }

  // ---- Limits ---------------------------------------------------------------------------------

  /** What it waits for, the parser waits for within 65536 bytes of head, 128 bytes of a chunk-size line and
      65536 of a trailer line, and gives up beyond. */
  lemma GivesUpIff(b: seq<byte>, c: Core)
    requires c.offset <= |b|
    ensures c.phase == Headers && FirstBlankLine(b, 0).None? ==>
              Step(b, c) == if |b| > 65536 then Some(FAILED) else None
    ensures c.phase == ChunkSize && FirstCrlf(b, c.offset).None? ==>
              Step(b, c) == if |b| - c.offset > 128 then Some(FAILED) else None
    ensures c.phase == Trailers && FirstCrlf(b, c.offset).None? ==>
              Step(b, c) == if |b| - c.offset > 65536 then Some(FAILED) else None
    ensures c.phase == ChunkDataCrlf && |b| - c.offset < 2 ==> Step(b, c) == None
  {
  }

  /** A head found is refused if it has more than 65536 bytes with its blank line. */
  lemma LongHeadIsRefused(b: seq<byte>)
    ensures FirstBlankLine(b, 0).Some? && FirstBlankLine(b, 0).value + 4 > 65536 ==> Run(b, START) == FAILED
    ensures FirstBlankLine(b, 0).Some? && FirstBlankLine(b, 0).value + 4 <= 65536 &&
            !HeadFraming(b[..FirstBlankLine(b, 0).value]).Bad? ==>
              Step(b, START).Some? && Step(b, START).value != FAILED
  {
    if FirstBlankLine(b, 0).Some? && FirstBlankLine(b, 0).value + 4 > 65536 { assert Run(b, FAILED) == FAILED; }
  }

  /** The long lines are the size lines of 128 bytes and more, and the trailer lines of 65536 and more. */
  lemma LongLineIff(b: seq<byte>, c: Core)
    requires c.offset <= |b|
    ensures LongLine(b, c) <==>
            FirstCrlf(b, c.offset).Some? &&
            var n := FirstCrlf(b, c.offset).value - c.offset;
            (c.phase == ChunkSize && n >= 128) || (c.phase == Trailers && n >= 65536)
  {
  }

  /** Failing leaves nothing, whatever was read before. */
  lemma FailingLeavesNothing(b: seq<byte>, c: Core)
    requires c.offset <= |b| && Step(b, c) == Some(FAILED)
    ensures Outcome(Run(b, c)) == (Error, [])
  {
    assert Run(b, FAILED) == FAILED;
  }
}
