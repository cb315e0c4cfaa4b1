/** What the header lines of an accepted response say (src/dns/http_response.cpp:154-206; section 6.3 of
    RFC 9112), stated of heads built line by line. */
module HttpFields {
  import opened Bytes
  import opened HttpText
  import opened HttpHead
  import HttpCore
  import HttpEncode
  import HttpAccept

  /** "content-length", "transfer-encoding" and "chunked". */
  const LENGTH_NAME: seq<byte> := [99, 111, 110, 116, 101, 110, 116, 45, 108, 101, 110, 103, 116, 104]
  const CODING_NAME: seq<byte> :=
    [116, 114, 97, 110, 115, 102, 101, 114, 45, 101, 110, 99, 111, 100, 105, 110, 103]
  const CHUNKED_CODING: seq<byte> := [99, 104, 117, 110, 107, 101, 100]

  lemma NamesAreSpelled()
    ensures CONTENT_LENGTH == LENGTH_NAME && TRANSFER_ENCODING == CODING_NAME && CHUNKED == CHUNKED_CODING
  {
  }

  // ---- Blanks around a value ------------------------------------------------------------------

  predicate AllBlank(s: seq<byte>) {
    forall i :: 0 <= i < |s| ==> s[i] == 32 || s[i] == 9
  }

  lemma {:induction false} LeftIsBlank(s: seq<byte>)
    ensures exists front :: AllBlank(front) && s == front + TrimLeft(s)
  {
    if s != [] && IsBlank(s[0]) {
      LeftIsBlank(s[1..]);
      var front :| AllBlank(front) && s[1..] == front + TrimLeft(s[1..]);
      assert s == ([s[0]] + front) + TrimLeft(s);
    } else {
      assert s == [] + TrimLeft(s);
    }
  }

  lemma {:induction false} RightIsBlank(s: seq<byte>)
    ensures exists back :: AllBlank(back) && s == TrimRight(s) + back
  {
    if s != [] && IsBlank(s[|s| - 1]) {
      RightIsBlank(s[..|s| - 1]);
      var back :| AllBlank(back) && s[..|s| - 1] == TrimRight(s[..|s| - 1]) + back;
      assert s == TrimRight(s) + (back + [s[|s| - 1]]);
    } else {
      assert s == TrimRight(s) + [];
    }
  }

  /** Only blanks are trimmed. */
  lemma OnlyBlanksGo(s: seq<byte>)
    ensures exists front, back :: AllBlank(front) && AllBlank(back) && s == front + Trimmed(s) + back
  {
    LeftIsBlank(s);
    RightIsBlank(TrimLeft(s));
    var front :| AllBlank(front) && s == front + TrimLeft(s);
    var back :| AllBlank(back) && TrimLeft(s) == Trimmed(s) + back;
    assert s == front + Trimmed(s) + back;
  }

  // ---- Decimal numbers ------------------------------------------------------------------------

  function Decimal(n: nat): (text: seq<byte>)
    ensures text != []
  {
    if n < 10 then [(48 + n) as byte] else Decimal(n / 10) + [(48 + n % 10) as byte]
  }

  lemma {:induction false} DecimalDigits(n: nat)
    ensures AllDigits(Decimal(n), 10) && NumberOf(Decimal(n), 10) == n
  {
    if n >= 10 {
      DecimalDigits(n / 10);
      assert Decimal(n)[..|Decimal(n)| - 1] == Decimal(n / 10);
    } else {
      assert Decimal(n)[..0] == [];
      assert NumberOf([], 10) == 0;
    }
  }

  /** A number written in decimal is read back if it fits 64 bits, and otherwise refused. */
  lemma DecimalReadsBack(n: nat)
    ensures Number(Decimal(n), 10) == if n < 0x1_0000_0000_0000_0000 then Some(n) else None
  {
    DecimalDigits(n);
  }

  // ---- A head and its lines -------------------------------------------------------------------

  function AbsorbAll(fields: Fields, lines: seq<seq<byte>>): Fields
    decreases |lines|
  {
    if fields.Malformed? || |lines| == 0 then fields else AbsorbAll(Absorb(fields, lines[0]), lines[1..])
  }

  lemma {:induction false} LinesAreAbsorbed(head: seq<byte>, start: nat, fields: Fields)
    ensures FieldsFrom(head, start, fields) == AbsorbAll(fields, Lines(head, start))
    decreases |head| - start
  {
    if fields.Fields? && start < |head| {
      var (end, next) := LineEnd(head, start);
      var line := head[start..end];
      LinesAreAbsorbed(head, next, Absorb(fields, line));
      FirstLineIs(line, Lines(head, next));
    }
  }

  lemma FirstLineIs(line: seq<byte>, rest: seq<seq<byte>>)
    ensures ([line] + rest)[0] == line && ([line] + rest)[1..] == rest
  {
  }

  /** Lines end at a carriage return followed by a line feed, and the next one starts behind both. */
  lemma LinesAre(head: seq<byte>, start: nat, e: nat)
    requires start <= e && (forall i :: start <= i < e && i + 2 <= |head| ==> !(head[i] == 13 && head[i + 1] == 10))
    ensures e + 2 <= |head| && head[e] == 13 && head[e + 1] == 10 ==>
              Lines(head, start) == [head[start..e]] + Lines(head, e + 2)
    ensures e == |head| ==> Lines(head, start) == if start == e then [] else [head[start..]]
  {
    if (e + 2 <= |head| && head[e] == 13 && head[e + 1] == 10) || e == |head| {
      CrlfResumes(head, start, e);
      if start < e == |head| { assert Lines(head, |head|) == [] && head[start..e] == head[start..]; }
    }
  }

  /** "HTTP/", a version up to the first space at `p`, "200", and nothing or a space and a reason. */
  predicate IsOkStatus(status: seq<byte>, p: nat) {
    && 5 <= p && p + 4 <= |status| && (forall k :: 0 <= k < p ==> status[k] != 32) && status[p] == 32
    && status[0] == 72 && status[1] == 84 && status[2] == 84 && status[3] == 80 && status[4] == 47
    && status[p + 1] == 50 && status[p + 2] == 48 && status[p + 3] == 48
    && (p + 4 < |status| ==> status[p + 4] == 32)
  }

  lemma OkStatusIsOk(status: seq<byte>, p: nat)
    requires IsOkStatus(status, p)
    ensures StatusIsOk(status) && HTTP_SLASH <= status
  {
    HttpAccept.IndexIs(status, SPACE, 0, p);
    assert status[p + 1..p + 4] == [50, 48, 48] == OK_STATUS;
    assert status[..5] == HTTP_SLASH;
  }

  /** A head whose first line, up to `e`, is such a line. */
  predicate StartsOk(head: seq<byte>, e: nat, p: nat) {
    FirstCrlf(head, 0) == Some(e) && IsOkStatus(head[..e], p)
  }

  /** The head is framed as what is read behind its first line. */
  predicate FramedBehind(head: seq<byte>, e: nat) {
    HeadFraming(head) == BodyFraming(FieldsFrom(head, e + 2, NO_FIELDS))
  }

  lemma StatusPasses(head: seq<byte>, e: nat, p: nat)
    requires StartsOk(head, e, p)
    ensures FramedBehind(head, e)
  {
    OkStatusIsOk(head[..e], p);
  }

  lemma FramedAlike(head: seq<byte>, e: nat)
    requires FramedBehind(head, e)
    ensures HeadFraming(head) == BodyFraming(AbsorbAll(NO_FIELDS, Lines(head, e + 2)))
  {
    LinesAreAbsorbed(head, e + 2, NO_FIELDS);
  }

  /** A head with a good status line is framed as its other lines together say. */
  lemma HeadSays(head: seq<byte>, e: nat, p: nat)
    requires StartsOk(head, e, p)
    ensures HeadFraming(head) == BodyFraming(AbsorbAll(NO_FIELDS, Lines(head, e + 2)))
  {
    StatusPasses(head, e, p);
    FramedAlike(head, e);
  }

  // ---- What the lines together say ------------------------------------------------------------

  /** A line of a name, a colon and a value. */
  ghost predicate Says(line: seq<byte>, name: seq<byte>, value: seq<byte>) {
    exists n: seq<byte>, v: seq<byte> ::
      line == n + [58] + v && n != [] && 58 !in n && Lower(Trimmed(n)) == name && Trimmed(v) == value
  }

  lemma SplitAtColon(line: seq<byte>, n: seq<byte>, v: seq<byte>)
    requires line == n + [58] + v && 58 !in n
    ensures IndexOf(line, COLON, 0) == |n| < |line| && line[..|n|] == n && line[|n| + 1..] == v
  {
    forall k | 0 <= k < |n| ensures line[k] != 58 { assert line[k] == n[k]; }
    HttpAccept.IndexIs(line, COLON, 0, |n|);
  }

  lemma SaidIsRead(line: seq<byte>, name: seq<byte>, value: seq<byte>)
    requires Says(line, name, value)
    ensures ReadField(line) == Some(Field(name, value)) && IsTrimmed(value)
  {
    var n: seq<byte>, v: seq<byte> :|
      line == n + [58] + v && n != [] && 58 !in n && Lower(Trimmed(n)) == name && Trimmed(v) == value;
    SplitAtColon(line, n, v);
  }

  /** Lines about something else than the body. */
  ghost predicate IsOther(line: seq<byte>) {
    exists name: seq<byte>, value: seq<byte> :: Says(line, name, value) && name != LENGTH_NAME && name != CODING_NAME
  }

  ghost predicate AllOther(lines: seq<seq<byte>>) {
    forall i :: 0 <= i < |lines| ==> IsOther(lines[i])
  }

  lemma OtherIsSkipped(fields: Fields, line: seq<byte>)
    requires fields.Fields? && IsOther(line)
    ensures Absorb(fields, line) == fields
  {
    var name: seq<byte>, value: seq<byte> :| Says(line, name, value) && name != LENGTH_NAME && name != CODING_NAME;
    SaidIsRead(line, name, value);
    NamesAreSpelled();
  }

  lemma {:induction false} OthersSayNothing(fields: Fields, lines: seq<seq<byte>>, rest: seq<seq<byte>>)
    requires fields.Fields? && AllOther(lines)
    ensures AbsorbAll(fields, lines + rest) == AbsorbAll(fields, rest)
    decreases |lines|
  {
    if |lines| == 0 {
      assert lines + rest == rest;
    } else {
      OtherIsSkipped(fields, lines[0]);
      assert (lines + rest)[0] == lines[0] && (lines + rest)[1..] == lines[1..] + rest;
      OthersSayNothing(fields, lines[1..], rest);
    }
  }

  lemma OneLineSays(before: seq<seq<byte>>, line: seq<byte>, after: seq<seq<byte>>)
    requires AllOther(before) && AllOther(after)
    ensures AbsorbAll(NO_FIELDS, before + ([line] + after)) == Absorb(NO_FIELDS, line)
  {
    OthersSayNothing(NO_FIELDS, before, [line] + after);
    FirstLineIs(line, after);
    var absorbed := Absorb(NO_FIELDS, line);
    if absorbed.Fields? {
      OthersSayNothing(absorbed, after, []);
      assert after + [] == after;
    }
  }

  /** The head's status is 200, and its other lines are `lines`. */
  predicate Consists(head: seq<byte>, e: nat, p: nat, lines: seq<seq<byte>>) {
    StartsOk(head, e, p) && Lines(head, e + 2) == lines
  }

  lemma OneLineFrames(head: seq<byte>, e: nat, p: nat,
                      before: seq<seq<byte>>, line: seq<byte>, after: seq<seq<byte>>)
    requires Consists(head, e, p, before + ([line] + after)) && AllOther(before) && AllOther(after)
    ensures HeadFraming(head) == BodyFraming(Absorb(NO_FIELDS, line))
  {
    HeadSays(head, e, p);
    OneLineSays(before, line, after);
  }

  lemma LengthRead(fields: Fields, line: seq<byte>, n: nat)
    requires Says(line, LENGTH_NAME, Decimal(n)) && fields.Fields? && n < 0x1_0000_0000_0000_0000
    ensures Absorb(fields, line) ==
            if fields.length.Some? && fields.length != Some(n) then Malformed else fields.(length := Some(n))
  {
    SaidIsRead(line, LENGTH_NAME, Decimal(n));
    NamesAreSpelled();
    DecimalReadsBack(n);
  }

  lemma LongLengthRead(fields: Fields, line: seq<byte>, n: nat)
    requires Says(line, LENGTH_NAME, Decimal(n)) && fields.Fields? && n >= 0x1_0000_0000_0000_0000
    ensures Absorb(fields, line) == Malformed
  {
    SaidIsRead(line, LENGTH_NAME, Decimal(n));
    NamesAreSpelled();
    DecimalReadsBack(n);
  }

  /** One Content-Length among other lines frames a body of that length, if it is at most 65535. */
  lemma LengthFrames(head: seq<byte>, e: nat, p: nat,
                     before: seq<seq<byte>>, line: seq<byte>, after: seq<seq<byte>>, n: nat)
    requires Consists(head, e, p, before + ([line] + after)) && AllOther(before) && AllOther(after)
    requires Says(line, LENGTH_NAME, Decimal(n))
    ensures HeadFraming(head) == if n <= 65535 then Fixed(n) else Bad
  {
    OneLineFrames(head, e, p, before, line, after);
    if n < 0x1_0000_0000_0000_0000 { LengthRead(NO_FIELDS, line, n); } else { LongLengthRead(NO_FIELDS, line, n); }
  }

  lemma CodingRead(fields: Fields, line: seq<byte>, value: seq<byte>)
    requires Says(line, CODING_NAME, value) && fields.Fields? && fields.coding == []
    ensures Absorb(fields, line) == fields.(coding := Lower(value)) && IsTrimmed(value)
  {
    SaidIsRead(line, CODING_NAME, value);
    NamesAreSpelled();
    assert CODING_NAME[0] != LENGTH_NAME[0];
    assert [] + Lower(value) == Lower(value);
  }

  /** A trimmed value is trimmed in lower case too. */
  lemma LowerTrims(value: seq<byte>)
    requires IsTrimmed(value)
    ensures Trimmed(Lower(value)) == Lower(value)
  {
    if value != [] {
      LowerEnds(value);
      HttpEncode.TrimmedAlready(Lower(value));
    }
  }

  lemma {:induction false} LowerEnds(s: seq<byte>)
    requires s != []
    ensures Lower(s)[0] == LowerByte(s[0]) && Lower(s)[|s| - 1] == LowerByte(s[|s| - 1])
  {
    if |s| > 1 { LowerEnds(s[1..]); }
  }

  /** One Transfer-Encoding among other lines frames chunks if it says "chunked", in any case; with any
      other value, or an empty one, the head is refused. */
  lemma CodingFrames(head: seq<byte>, e: nat, p: nat,
                     before: seq<seq<byte>>, line: seq<byte>, after: seq<seq<byte>>, value: seq<byte>)
    requires Consists(head, e, p, before + ([line] + after)) && AllOther(before) && AllOther(after)
    requires Says(line, CODING_NAME, value)
    ensures HeadFraming(head) == if Lower(value) == CHUNKED_CODING then Chunked else Bad
  {
    OneLineFrames(head, e, p, before, line, after);
    CodingRead(NO_FIELDS, line, value);
    LowerTrims(value);
    NamesAreSpelled();
  }

  lemma TwoLinesSay(head: seq<byte>, e: nat, p: nat,
                    first: seq<byte>, second: seq<byte>, one: Fields)
    requires Consists(head, e, p, [first, second]) && one == Absorb(NO_FIELDS, first) && one.Fields?
    ensures HeadFraming(head) == BodyFraming(Absorb(one, second))
  {
    HeadSays(head, e, p);
    assert [first, second][1..] == [second] && [second][1..] == [];
    assert AbsorbAll(NO_FIELDS, [first, second]) == AbsorbAll(one, [second]) == AbsorbAll(Absorb(one, second), []);
  }

  /** Two lines that frame the body: lengths must agree, and a length and a coding are refused. */
  lemma TwoFramesMustAgree(head: seq<byte>, e: nat, p: nat,
                           first: seq<byte>, second: seq<byte>, n: nat, m: nat, value: seq<byte>)
    requires Consists(head, e, p, [first, second])
    requires Says(first, LENGTH_NAME, Decimal(n)) && n <= 65535 && m <= 65535
    ensures Says(second, LENGTH_NAME, Decimal(m)) ==> HeadFraming(head) == if n == m then Fixed(n) else Bad
    ensures Says(second, CODING_NAME, value) && value != [] ==> HeadFraming(head) == Bad
  {
    LengthRead(NO_FIELDS, first, n);
    var one := NO_FIELDS.(length := Some(n));
    TwoLinesSay(head, e, p, first, second, one);
    if Says(second, LENGTH_NAME, Decimal(m)) { LengthRead(one, second, m); }
    if Says(second, CODING_NAME, value) { CodingRead(one, second, value); }
  }

  lemma SecondCodingRead(fields: Fields, line: seq<byte>, value: seq<byte>)
    requires Says(line, CODING_NAME, value) && fields.Fields? && fields.coding != []
    ensures Absorb(fields, line) == fields.(coding := fields.coding + [44] + Lower(value))
  {
    SaidIsRead(line, CODING_NAME, value);
    NamesAreSpelled();
    assert CODING_NAME[0] != LENGTH_NAME[0];
  }

  /** Two codings are never chunks, not even two halves of the word. */
  lemma TwoCodingsAreRefused(head: seq<byte>, e: nat, p: nat, first: seq<byte>, second: seq<byte>,
                             a: seq<byte>, b: seq<byte>)
    requires Consists(head, e, p, [first, second]) && a != []
    requires Says(first, CODING_NAME, a) && Says(second, CODING_NAME, b)
    ensures HeadFraming(head) == Bad
  {
    CodingRead(NO_FIELDS, first, a);
    var one := NO_FIELDS.(coding := Lower(a));
    TwoLinesSay(head, e, p, first, second, one);
    SecondCodingRead(one, second, b);
    CommaStays(Lower(a), Lower(b));
    NamesAreSpelled();
    assert 44 !in CHUNKED_CODING;
  }

  lemma CommaStays(a: seq<byte>, b: seq<byte>)
    ensures 44 in Trimmed(a + [44] + b)
  {
    var joined := a + [44] + b;
    OnlyBlanksGo(joined);
    var front, back :| AllBlank(front) && AllBlank(back) && joined == front + Trimmed(joined) + back;
    var n := |front| + |Trimmed(joined)|;
    forall i | 0 <= i < |front| ensures joined[i] != 44 { assert joined[i] == front[i]; }
    forall i | n <= i < |joined| ensures joined[i] != 44 { assert joined[i] == back[i - n]; }
    assert joined[|a|] == 44;
    assert Trimmed(joined)[|a| - |front|] == 44;
  }

  // ---- Size lines -----------------------------------------------------------------------------

  lemma {:induction false} LeftTrims(front: seq<byte>, text: seq<byte>)
    requires AllBlank(front) && text != [] && !IsBlank(text[0])
    ensures TrimLeft(front + text) == text
  {
    if front == [] { assert front + text == text; }
    else {
      assert (front + text)[1..] == front[1..] + text;
      LeftTrims(front[1..], text);
    }
  }

  lemma {:induction false} RightTrims(text: seq<byte>, back: seq<byte>)
    requires AllBlank(back) && text != [] && !IsBlank(text[|text| - 1])
    ensures TrimRight(text + back) == text
  {
    if back == [] { assert text + back == text; }
    else {
      assert (text + back)[..|text + back| - 1] == text + back[..|back| - 1];
      RightTrims(text, back[..|back| - 1]);
    }
  }

  /** Blanks around a text without any at its ends are trimmed. */
  lemma TrimsTo(front: seq<byte>, text: seq<byte>, back: seq<byte>)
    requires AllBlank(front) && AllBlank(back) && text != [] && IsTrimmed(text)
    ensures Trimmed(front + text + back) == text
  {
    assert front + text + back == front + (text + back);
    assert (text + back)[0] == text[0];
    LeftTrims(front, text + back);
    RightTrims(text, back);
  }

  /** A hexadecimal number, in either case, with blanks around it, is the size of a chunk, with or without an
      extension behind a semicolon. */
  lemma SizeIsRead(front: seq<byte>, text: seq<byte>, back: seq<byte>, extension: seq<byte>, n: nat)
    requires AllBlank(front) && AllBlank(back) && Number(text, 16) == Some(n)
    ensures HttpCore.LineSize(front + text + back) == Some(n)
    ensures HttpCore.LineSize(front + text + back + [59] + extension) == Some(n)
  {
    var plain := front + text + back;
    forall i | 0 <= i < |plain| ensures plain[i] != 59 { DigitsAndBlanks(front, text, back, i); }
    assert DigitOf(text[0], 16).Some? && DigitOf(text[|text| - 1], 16).Some?;
    TrimsTo(front, text, back);
    CutBefore(plain, plain, []);
    CutBefore(plain + [59] + extension, plain, [59] + extension);
  }

  lemma DigitsAndBlanks(front: seq<byte>, text: seq<byte>, back: seq<byte>, i: nat)
    requires AllBlank(front) && AllBlank(back) && AllDigits(text, 16) && i < |front + text + back|
    ensures (front + text + back)[i] != 59
  {
    var c := (front + text + back)[i];
    if i < |front| { assert c == front[i]; }
    else if i < |front| + |text| { assert c == text[i - |front|] && DigitOf(c, 16).Some?; }
    else { assert c == back[i - |front| - |text|]; }
  }

  lemma CutBefore(line: seq<byte>, plain: seq<byte>, tail: seq<byte>)
    requires (forall i :: 0 <= i < |plain| ==> plain[i] != 59) && (tail != [] ==> tail[0] == 59) && line == plain + tail
    ensures line[..IndexOf(line, SEMICOLON, 0)] == plain
  {
    if tail == [] {
      NoneFound(line, SEMICOLON, 0);
    } else {
      HttpAccept.IndexIs(line, SEMICOLON, 0, |plain|);
    }
  }

  lemma {:induction false} NoneFound(s: seq<byte>, c: byte, from: nat)
    requires from <= |s| && forall i :: from <= i < |s| ==> s[i] != c
    ensures IndexOf(s, c, from) == |s|
    decreases |s| - from
  {
    if from < |s| { NoneFound(s, c, from + 1); }
  }

  /** The digits of both radices, in both cases. */
  lemma DigitsAre(c: byte, d: nat)
    ensures DecDigit(c) == Some(d) <==> d < 10 && c as nat == 48 + d
    ensures HexDigit(c) == Some(d) <==>
            d < 16 && (c == HttpEncode.HexChar(d) || (d >= 10 && c as nat == 65 + (d - 10)))
  {
  }
}
