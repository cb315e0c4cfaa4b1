/** What the head of a response says about its body (src/dns/http_response.cpp, the header
    phase; section 6.3 of RFC 9112). */
module HttpHead {
  import opened Bytes
  import opened HttpText

  const MAX_BODY_BYTES: nat := 65535

  const SPACE: byte := 32

  function Ascii(s: string): (r: seq<byte>)
    requires forall i :: 0 <= i < |s| ==> s[i] < 128 as char
    ensures |r| == |s|
  {
    seq(|s|, i requires 0 <= i < |s| => s[i] as byte)
  }

  const HTTP_SLASH := Ascii("HTTP/")
  const OK_STATUS := Ascii("200")
  const CONTENT_LENGTH := Ascii("content-length")
  const TRANSFER_ENCODING := Ascii("transfer-encoding")
  const CHUNKED := Ascii("chunked")

  datatype Field = Field(name: seq<byte>, value: seq<byte>)

  datatype Framing = Bad | Chunked | Fixed(length: nat)

  /** The status line's code is 200. */
  predicate StatusIsOk(status: seq<byte>) {
    var space := IndexOf(status, SPACE, 0);
    && space < |status| && space + 4 <= |status|
    && status[space + 1..space + 4] == OK_STATUS
    && (space + 4 < |status| ==> status[space + 4] == SPACE)
  }

  /** A header line, if it has a name and a colon. */
  function ReadField(line: seq<byte>): Option<Field> {
    var colon := IndexOf(line, COLON, 0);
    if colon == |line| || colon == 0 then None
    else Some(Field(Lower(Trimmed(line[..colon])), Trimmed(line[colon + 1..])))
  }

  predicate IsLength(line: seq<byte>) {
    ReadField(line).Some? && ReadField(line).value.name == CONTENT_LENGTH
  }

  /** What has been read of the header so far: the one length and the joined codings. */
  datatype Fields = Malformed | Fields(length: Option<nat>, coding: seq<byte>)

  /** One more header line. */
  function Absorb(fields: Fields, line: seq<byte>): Fields
    requires fields.Fields?
  {
    match ReadField(line)
    case None => Malformed
    case Some(Field(name, value)) =>
      if name == CONTENT_LENGTH then
        var parsed := Number(value, 10);
        if parsed.None? || (fields.length.Some? && parsed != fields.length) then Malformed
        else fields.(length := parsed)
      else if name == TRANSFER_ENCODING then
        fields.(coding := (if fields.coding == [] then [] else fields.coding + [COMMA]) + Lower(value))
      else fields
  }

  /** The end of the line at `start`, and where the next one starts. */
  function LineEnd(head: seq<byte>, start: nat): (r: (nat, nat))
    requires start < |head|
    ensures start <= r.0 <= |head| && start < r.1 <= |head|
  {
    match FirstCrlf(head, start)
    case None => (|head|, |head|)
    case Some(e) => (e, e + 2)
  }

  function FieldsFrom(head: seq<byte>, start: nat, fields: Fields): Fields
    decreases |head| - start
  {
    if fields.Malformed? || start >= |head| then fields
    else
      var (end, next) := LineEnd(head, start);
      FieldsFrom(head, next, Absorb(fields, head[start..end]))
  }

  const NO_FIELDS := Fields(None, [])

  function BodyFraming(fields: Fields): Framing {
    if fields.Malformed? then Bad
    else if fields.coding != [] then
      if fields.length.Some? || Trimmed(fields.coding) != CHUNKED then Bad else Chunked
    else if fields.length.Some? && fields.length.value <= MAX_BODY_BYTES then Fixed(fields.length.value)
    else Bad
  }

  function HeadFraming(head: seq<byte>): Framing {
    match FirstCrlf(head, 0)
    case None => Bad
    case Some(statusEnd) =>
      if !(HTTP_SLASH <= head) || !StatusIsOk(head[..statusEnd]) then Bad
      else BodyFraming(FieldsFrom(head, statusEnd + 2, NO_FIELDS))
  }

  function FieldsRead(ok: bool, hasLength: bool, contentLength: nat, coding: seq<byte>): Fields {
    if ok then Fields(if hasLength then Some(contentLength) else None, coding) else Malformed
  }

  /** One header line. */
  method ReadLine(line: seq<byte>, hasLength: bool, contentLength: nat, transferEncoding: seq<byte>)
    returns (ok: bool, hasLength': bool, contentLength': nat, transferEncoding': seq<byte>)
    ensures FieldsRead(ok, hasLength', contentLength', transferEncoding')
            == Absorb(FieldsRead(true, hasLength, contentLength, transferEncoding), line)
  {
    ok, hasLength', contentLength', transferEncoding' := false, hasLength, contentLength, transferEncoding;
    var field := ReadField(line);
    if field.None? { return; }
    var name, value := field.value.name, field.value.value;
    if name == CONTENT_LENGTH {
      var parsed := ParseNumber(value, 10);
      if parsed.None? || (hasLength && parsed.value != contentLength) { return; }
      hasLength' := true;
      contentLength' := parsed.value;
    } else if name == TRANSFER_ENCODING {
      if transferEncoding' != [] { transferEncoding' := transferEncoding' + [COMMA]; }
      transferEncoding' := transferEncoding' + Lower(value);
    }
    ok := true;
  }

  lemma FieldsGoOn(head: seq<byte>, start: nat, fields: Fields, end: nat, next: nat)
    requires start < |head| && !fields.Malformed? && (end, next) == LineEnd(head, start)
    ensures start <= end <= |head|
    ensures FieldsFrom(head, start, fields) == FieldsFrom(head, next, Absorb(fields, head[start..end]))
  {
  }

  lemma MalformedStays(head: seq<byte>, start: nat)
    ensures FieldsFrom(head, start, Malformed) == Malformed
  {
  }

  /** The header lines from `start` on, read one by one. */
  method ReadFields(head: seq<byte>, start: nat)
    returns (ok: bool, hasLength: bool, contentLength: nat, transferEncoding: seq<byte>)
    ensures FieldsFrom(head, start, NO_FIELDS) == FieldsRead(ok, hasLength, contentLength, transferEncoding)
  {
    ok, hasLength, contentLength, transferEncoding := true, false, 0, [];
    var lineStart := start;
    while lineStart < |head|
      invariant ok
      invariant FieldsFrom(head, start, NO_FIELDS)
                == FieldsFrom(head, lineStart, FieldsRead(true, hasLength, contentLength, transferEncoding))
      decreases |head| - lineStart
    {
      var lineEnd := FindCrlf(head, lineStart);
      var end := if lineEnd.Some? then lineEnd.value else |head|;
      var next := if lineEnd.Some? then lineEnd.value + 2 else |head|;
      FieldsGoOn(head, lineStart, FieldsRead(true, hasLength, contentLength, transferEncoding), end, next);
      var line := head[lineStart..end];
      ok, hasLength, contentLength, transferEncoding := ReadLine(line, hasLength, contentLength, transferEncoding);
      lineStart := next;
      if !ok {
        MalformedStays(head, next);
        return;
      }
    }
  }

  method ReadHead(head: seq<byte>) returns (framing: Framing)
    ensures framing == HeadFraming(head)
  {
    var statusEnd := FindCrlf(head, 0);
    if statusEnd.None? || !(HTTP_SLASH <= head) { return Bad; }
    if !StatusIsOk(head[..statusEnd.value]) { return Bad; }
    var ok, hasLength, contentLength, transferEncoding := ReadFields(head, statusEnd.value + 2);
    if !ok { return Bad; }
    if transferEncoding != [] {
      var coding := Trim(transferEncoding);
      if hasLength || coding != CHUNKED { return Bad; }
      return Chunked;
    }
    if hasLength {
      if contentLength > MAX_BODY_BYTES { return Bad; }
      return Fixed(contentLength);
    }
    return Bad;
  }

  // ---- What a header has to say ---------------------------------------------------------

  function Lines(head: seq<byte>, start: nat): seq<seq<byte>>
    decreases |head| - start
  {
    if start >= |head| then []
    else
      var (end, next) := LineEnd(head, start);
      [head[start..end]] + Lines(head, next)
  }

  /** The value of a Content-Length line. */
  function LengthValue(line: seq<byte>): Option<nat>
    requires IsLength(line)
  {
    Number(ReadField(line).value.value, 10)
  }

  /** Every line is a field and every Content-Length among them says `n`. */
  predicate AllSay(lines: seq<seq<byte>>, n: nat) {
    forall line :: line in lines ==> ReadField(line).Some? && (IsLength(line) ==> LengthValue(line) == Some(n))
  }

  predicate HasLength(lines: seq<seq<byte>>) {
    exists line :: line in lines && IsLength(line)
  }

  /** The header is read to the end exactly when all its lines are fields and some number is
      what every Content-Length says; the length read is then that number, and there is one
      exactly when some line gave it. */
  lemma {:induction false} FieldsAgree(head: seq<byte>, start: nat, fields: Fields, n: nat)
    requires fields.Fields? && (fields.length.Some? ==> fields.length == Some(n))
    ensures AllSay(Lines(head, start), n) ==>
              FieldsFrom(head, start, fields).Fields? &&
              FieldsFrom(head, start, fields).length ==
                if fields.length.Some? || HasLength(Lines(head, start)) then Some(n) else None
    ensures FieldsFrom(head, start, fields).Fields? &&
            (FieldsFrom(head, start, fields).length.Some? ==> FieldsFrom(head, start, fields).length == Some(n)) ==>
              AllSay(Lines(head, start), n)
    decreases |head| - start
  {
    if start < |head| {
      var (end, next) := LineEnd(head, start);
      var line := head[start..end];
      var rest := Lines(head, next);
      var lines := Lines(head, start);
      assert lines == [line] + rest;
      assert AllSay(lines, n) <==> AllSay([line], n) && AllSay(rest, n);
      assert HasLength(lines) <==> IsLength(line) || HasLength(rest);
      var absorbed := Absorb(fields, line);
      assert FieldsFrom(head, start, fields) == FieldsFrom(head, next, absorbed);
      assert line in [line];
      if absorbed.Fields? {
        if absorbed.length.Some? && absorbed.length != Some(n) {
          KeepsLength(head, next, absorbed);
        } else {
          FieldsAgree(head, next, absorbed, n);
        }
      }
    }
  }

  lemma {:induction false} KeepsLength(head: seq<byte>, start: nat, fields: Fields)
    requires fields.Fields? && fields.length.Some?
    ensures FieldsFrom(head, start, fields).Fields? ==> FieldsFrom(head, start, fields).length == fields.length
    decreases |head| - start
  {
    if start < |head| {
      var (end, next) := LineEnd(head, start);
      var absorbed := Absorb(fields, head[start..end]);
      if absorbed.Fields? { KeepsLength(head, next, absorbed); }
    }
  }
}
