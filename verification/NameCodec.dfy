/** Writing a dotted name as labels and reading a question back
    (EncodeName and ParseQuery in src/dns/message.cpp). */
module NameCodec {
  import opened Bytes
  import opened NameWalk

  const MAX_LABEL_LENGTH := 63
  const MAX_NAME_LENGTH := 255

  datatype Query = Query(id: nat, flags: nat, name: seq<byte>, qtype: nat, qclass: nat, questionEnd: nat)

  // ---- Dotted names ------------------------------------------------------------------

  /** The first dot at or after `start`, or the end of the name. */
  function NextDot(name: seq<byte>, start: nat): (e: nat)
    requires start <= |name|
    ensures start <= e <= |name|
    ensures forall i :: start <= i < e ==> name[i] != DOT
    ensures e < |name| ==> name[e] == DOT
    decreases |name| - start
  {
    if start == |name| || name[start] == DOT then start else NextDot(name, start + 1)
  }

  predicate LabelStart(name: seq<byte>, i: nat)
    requires i <= |name|
  {
    i == 0 || name[i - 1] == DOT
  }

  predicate LabelFits(name: seq<byte>, i: nat)
    requires i <= |name|
  {
    LabelStart(name, i) ==> 1 <= NextDot(name, i) - i <= MAX_LABEL_LENGTH
  }

  /** The names that have an encoding: the root, or labels of 1 to 63 bytes whose encoding, two
      bytes longer than the name, fits in 255 (section 2.3.4 of RFC 1035). */
  predicate Encodable(name: seq<byte>) {
    || name == []
    || (|name| + 2 <= MAX_NAME_LENGTH && forall i :: 0 <= i <= |name| ==> LabelFits(name, i))
  }

  /** Byte `i` of the encoding: the length of the label that starts there, or the byte of the
      name one place earlier. */
  function WireByte(name: seq<byte>, i: nat): byte
    requires i <= |name| && LabelFits(name, i)
  {
    if LabelStart(name, i) then (NextDot(name, i) - i) as byte else name[i - 1]
  }

  function Encoding(name: seq<byte>): (code: seq<byte>)
    requires Encodable(name)
  {
    if name == [] then [0]
    else seq(|name| + 2, i requires 0 <= i < |name| + 2 => if i <= |name| then WireByte(name, i) else 0)
  }

  predicate EncodedAt(name: seq<byte>, encoded: seq<byte>, i: nat)
    requires i < |encoded| <= |name| + 1
  {
    LabelFits(name, i) && encoded[i] == WireByte(name, i)
  }

  /** The labels before the end of `encoded` fit and are encoded. */
  predicate EncodedSoFar(name: seq<byte>, encoded: seq<byte>) {
    |encoded| <= |name| + 1 && forall i :: 0 <= i < |encoded| ==> EncodedAt(name, encoded, i)
  }

  lemma LabelByte(name: seq<byte>, start: nat, end: nat, i: nat)
    requires start <= |name| && LabelStart(name, start) && end == NextDot(name, start)
    requires 1 <= end - start <= MAX_LABEL_LENGTH && start <= i <= end
    ensures LabelFits(name, i)
    ensures WireByte(name, i) == if i == start then (end - start) as byte else name[start..end][i - start - 1]
  {
    if i > start { assert name[i - 1] != DOT; }
  }

  lemma InnerIndex<T>(a: seq<T>, x: T, b: seq<T>, i: nat)
    requires i <= |a| + |b|
    ensures (a + [x] + b)[i] == if i < |a| then a[i] else if i == |a| then x else b[i - |a| - 1]
  {
  }

  lemma LabelEncodedAt(name: seq<byte>, encoded: seq<byte>, end: nat, longer: seq<byte>, i: nat)
    requires |encoded| <= |name| && EncodedSoFar(name, encoded) && LabelStart(name, |encoded|)
    requires end == NextDot(name, |encoded|) && 1 <= end - |encoded| <= MAX_LABEL_LENGTH
    requires longer == encoded + [(end - |encoded|) as byte] + name[|encoded|..end] && i < |longer|
    ensures EncodedAt(name, longer, i)
  {
    InnerIndex(encoded, (end - |encoded|) as byte, name[|encoded|..end], i);
    if i < |encoded| { assert EncodedAt(name, encoded, i); } else { LabelByte(name, |encoded|, end, i); }
  }

  lemma LabelEncoded(name: seq<byte>, encoded: seq<byte>, end: nat)
    requires |encoded| <= |name| && EncodedSoFar(name, encoded) && LabelStart(name, |encoded|)
    requires end == NextDot(name, |encoded|) && 1 <= end - |encoded| <= MAX_LABEL_LENGTH
    ensures EncodedSoFar(name, encoded + [(end - |encoded|) as byte] + name[|encoded|..end])
  {
    var longer := encoded + [(end - |encoded|) as byte] + name[|encoded|..end];
    forall i | 0 <= i < |longer| ensures EncodedAt(name, longer, i) { LabelEncodedAt(name, encoded, end, longer, i); }
  }

  lemma NameEncoded(name: seq<byte>, encoded: seq<byte>)
    requires 0 < |name| == |encoded| - 1 <= MAX_NAME_LENGTH - 2 && EncodedSoFar(name, encoded)
    ensures Encodable(name) && encoded + [0] == Encoding(name)
  {
    forall i | 0 <= i <= |name| ensures LabelFits(name, i) && encoded[i] == WireByte(name, i) {
      assert EncodedAt(name, encoded, i);
    }
  }

  /** Append the encoding of `name` to `out`, or leave `out` exactly as it was. */
  method EncodeName(name: seq<byte>, out: seq<byte>) returns (ok: bool, out': seq<byte>)
    ensures ok <==> Encodable(name)
    ensures ok ==> out' == out + Encoding(name)
    ensures !ok ==> out' == out
  {
    ok, out' := false, out;
    var encoded: seq<byte> := [];
    var start: nat := 0;
    while start <= |name|
      invariant 0 <= start <= |name| && LabelStart(name, start)
      invariant |encoded| == start && EncodedSoFar(name, encoded)
      decreases |name| - start
    {
      var end := NextDot(name, start);
      var len := end - start;
      if len == 0 {
        if name == [] {
          encoded := [0];
          return true, out + encoded;
        }
        assert !LabelFits(name, start);
        return;
      }
      if len > MAX_LABEL_LENGTH {
        assert !LabelFits(name, start);
        return;
      }
      if |encoded| + 1 + len + 1 > MAX_NAME_LENGTH { return; }

      LabelEncoded(name, encoded, end);
      encoded := encoded + [len as byte] + name[start..end];
      if end == |name| { break; }
      start := end + 1;
    }
    NameEncoded(name, encoded);
    encoded := encoded + [0];
    ok, out' := true, out + encoded;
  }

  // ---- Reading a question -----------------------------------------------------------

  ghost predicate IsQuery(dns: seq<byte>) {
    && |dns| >= 12 && Read16(dns, 4) >= 1
    && HasName(dns, 12, false) && |NameText(dns, 12, false)| <= MAX_NAME_CHARS
    && ReportedEnd(dns, 12) + 4 <= |dns|
  }

  ghost function QueryOf(dns: seq<byte>): Query
    requires IsQuery(dns)
  {
    var e := ReportedEnd(dns, 12);
    Query(Read16(dns, 0), Read16(dns, 2), NameText(dns, 12, false), Read16(dns, e), Read16(dns, e + 2), e + 4)
  }

  /** The header and first question. On failure only the id and the flags may have been filled in. */
  method ParseQuery(dns: seq<byte>, out: Query) returns (ok: bool, out': Query)
    ensures ok <==> IsQuery(dns)
    ensures ok ==> out' == QueryOf(dns)
    ensures !ok ==> out' == out || (|dns| >= 12 && out' == out.(id := Read16(dns, 0), flags := Read16(dns, 2)))
  {
    out' := out;
    if |dns| < 12 { return false, out'; }
    out' := out'.(id := Read16(dns, 0));
    out' := out'.(flags := Read16(dns, 2));
    if Read16(dns, 4) < 1 { return false, out'; }
    var walked, off, name := WalkName(dns, 12, false, Some([]));
    if !walked { return false, out'; }
    if off + 4 > |dns| { return false, out'; }
    out' := out'.(qtype := Read16(dns, off), qclass := Read16(dns, off + 2),
                  name := name.value, questionEnd := off + 4);
    ok := true;
  }

  // ---- Round trips ---------------------------------------------------------------------

  /** What stands between a collected name and its next label. */
  function Lead(acc: seq<byte>): seq<byte> {
    if acc == [] then [] else acc + [DOT]
  }

  /** The whole text is what was collected and the rest in lower case. */
  predicate IsRest(text: seq<byte>, acc: seq<byte>, rest: seq<byte>) {
    text == Lead(acc) + Lower(rest)
  }

  /** One label taken off the front of what is left of a name. */
  lemma LowerDotted(acc: seq<byte>, name: seq<byte>, start: nat, e: nat)
    requires start < e < |name| && name[e] == DOT
    ensures Lead(Dotted(acc, name[start..e])) + Lower(name[e + 1..]) == Lead(acc) + Lower(name[start..])
  {
    var piece, rest := name[start..e], name[e + 1..];
    var dot := [DOT];
    assert name[start..] == piece + (dot + rest);
    LowerConcat(piece, dot + rest);
    LowerConcat(dot, rest);
    assert Lower(dot) == dot by { assert dot[1..] == []; }
    Reassociate(Lead(acc), Lower(piece), dot, Lower(rest));
  }

  lemma Reassociate<T>(a: seq<T>, b: seq<T>, c: seq<T>, d: seq<T>)
    ensures a + b + c + d == a + (b + (c + d))
  {
  }

  /** The encoding of `name` lies in the message at `base`. */
  predicate OnWire(dns: seq<byte>, base: nat, name: seq<byte>) {
    && name != [] && Encodable(name) && base + |name| + 2 <= |dns|
    && (forall i :: 0 <= i <= |name| ==> dns[base + i] == WireByte(name, i))
    && dns[base + |name| + 1] == 0
  }

  lemma LabelOnWire(dns: seq<byte>, base: nat, name: seq<byte>, start: nat, e: nat)
    requires OnWire(dns, base, name) && start <= |name| && LabelStart(name, start) && e == NextDot(name, start)
    ensures HopAt(dns, base + start, false) == Label(base + e + 1)
    ensures HopAt(dns, base + start, true) == Label(base + e + 1)
    ensures dns[base + start + 1..base + e + 1] == name[start..e]
  {
    assert LabelFits(name, start);
    assert dns[base + start] == WireByte(name, start);
    forall i | 0 <= i < e - start ensures dns[base + start + 1..base + e + 1][i] == name[start..e][i] {
      assert dns[base + (start + 1 + i)] == WireByte(name, start + 1 + i);
    }
  }

  lemma OnWireNext(dns: seq<byte>, base: nat, name: seq<byte>, start: nat, e: nat)
    requires OnWire(dns, base, name) && start <= |name| && LabelStart(name, start) && e == NextDot(name, start)
    ensures start < e && (e < |name| ==> LabelStart(name, e + 1))
    ensures e == |name| ==> HopAt(dns, base + e + 1, false).Root? && HopAt(dns, base + e + 1, true).Root?
  {
    assert LabelFits(name, start);
  }

  /** A message that carries the encoding of `name` from `start` on has a name there, closed
      by the encoding's own root. */
  lemma {:induction false} RunWire(dns: seq<byte>, base: nat, name: seq<byte>, start: nat) returns (hops: nat)
    requires OnWire(dns, base, name) && start <= |name| && LabelStart(name, start)
    ensures ReachesRoot(dns, base + start, false, hops)
    ensures LabelRun(dns, base + start) == base + |name| + 1
    decreases |name| - start
  {
    var e := NextDot(name, start);
    OnWireNext(dns, base, name, start, e);
    LabelOnWire(dns, base, name, start, e);
    if e < |name| {
      hops := RunWire(dns, base, name, e + 1);
    } else {
      hops := 0;
    }
    hops := hops + 1;
  }

  /** What the walk from `pos` makes of what was collected before. */
  ghost function WireText(dns: seq<byte>, pos: nat, hops: nat, acc: seq<byte>): seq<byte>
    requires ReachesRoot(dns, pos, false, hops)
  {
    TextFrom(dns, pos, false, hops, acc)
  }

  /** The first label of the rest, and how the walk goes on behind it. */
  lemma FirstLabel(dns: seq<byte>, base: nat, name: seq<byte>, start: nat, acc: seq<byte>, hops: nat, e: nat)
    requires OnWire(dns, base, name) && start <= |name| && LabelStart(name, start) && e == NextDot(name, start)
    requires ReachesRoot(dns, base + start, false, hops)
    ensures start < e && (e < |name| ==> LabelStart(name, e + 1)) && (e == |name| ==> hops == 1)
    ensures hops > 0 && ReachesRoot(dns, base + (e + 1), false, hops - 1)
    ensures WireText(dns, base + start, hops, acc) ==
            WireText(dns, base + (e + 1), hops - 1, Dotted(acc, name[start..e]))
  {
    OnWireNext(dns, base, name, start, e);
    LabelOnWire(dns, base, name, start, e);
  }

  /** What a name's labels from `start` on make of what was collected before. */
  function Collected(name: seq<byte>, start: nat, acc: seq<byte>): seq<byte>
    requires start <= |name|
    decreases |name| - start
  {
    var e := NextDot(name, start);
    if e < |name| then Collected(name, e + 1, Dotted(acc, name[start..e])) else Dotted(acc, name[start..e])
  }

  /** The walk collects the labels that lie there. */
  lemma {:induction false} TextWire(dns: seq<byte>, base: nat, name: seq<byte>, start: nat, acc: seq<byte>, hops: nat)
    requires OnWire(dns, base, name) && start <= |name| && LabelStart(name, start)
    requires ReachesRoot(dns, base + start, false, hops)
    ensures WireText(dns, base + start, hops, acc) == Collected(name, start, acc)
    decreases |name| - start
  {
    var e := NextDot(name, start);
    FirstLabel(dns, base, name, start, acc, hops, e);
    if e < |name| { TextWire(dns, base, name, e + 1, Dotted(acc, name[start..e]), hops - 1); }
  }

  /** And labels collected are, appended to what was there before, the rest of the name in lower case. */
  lemma {:induction false} CollectedIsRest(name: seq<byte>, start: nat, acc: seq<byte>)
    requires name != [] && Encodable(name) && start <= |name| && LabelStart(name, start)
    ensures IsRest(Collected(name, start, acc), acc, name[start..])
    decreases |name| - start
  {
    var e := NextDot(name, start);
    assert LabelFits(name, start);
    if e < |name| {
      CollectedIsRest(name, e + 1, Dotted(acc, name[start..e]));
      LowerDotted(acc, name, start, e);
    } else {
      assert name[start..e] == name[start..];
    }
  }

  /** Where a question starts with an encoding, the walk finds the name and its end. */
  lemma EncodedText(dns: seq<byte>, name: seq<byte>) returns (hops: nat)
    requires Encodable(name) && 12 + |Encoding(name)| <= |dns|
    requires dns[12..12 + |Encoding(name)|] == Encoding(name)
    ensures ReachesRoot(dns, 12, false, hops) && WireText(dns, 12, hops, []) == Lower(name)
    ensures LabelRun(dns, 12) == 12 + |Encoding(name)| - 1
  {
    var code := Encoding(name);
    assert forall i :: 0 <= i < |code| ==> dns[12 + i] == dns[12..12 + |code|][i] == code[i];
    if name == [] {
      assert dns[12] == code[0] == 0;
      return 0;
    }
    assert forall i :: 0 <= i <= |name| ==> dns[12 + i] == code[i] == WireByte(name, i);
    assert dns[12 + |name| + 1] == code[|name| + 1];
    assert name[0..] == name;
    hops := RunWire(dns, 12, name, 0);
    TextWire(dns, 12, name, 0, [], hops);
    CollectedIsRest(name, 0, []);
  }

  lemma EncodedName(dns: seq<byte>, name: seq<byte>)
    requires Encodable(name) && 12 + |Encoding(name)| <= |dns|
    requires dns[12..12 + |Encoding(name)|] == Encoding(name)
    ensures HasName(dns, 12, false) && NameText(dns, 12, false) == Lower(name) && |Lower(name)| <= MAX_NAME_CHARS
    ensures LabelRun(dns, 12) == 12 + |Encoding(name)| - 1
  {
    var hops := EncodedText(dns, name);
    NameTextIs(dns, 12, false, hops);
  }

  /** A message whose question starts with the encoding of `name` is a query for that name
      in lower case, and its question ends four bytes after the encoding. */
  lemma EncodedQuestion(dns: seq<byte>, name: seq<byte>)
    requires Encodable(name)
    requires 12 + |Encoding(name)| + 4 <= |dns| && Read16(dns, 4) >= 1
    requires dns[12..12 + |Encoding(name)|] == Encoding(name)
    ensures IsQuery(dns) && QueryOf(dns).name == Lower(name)
    ensures QueryOf(dns).questionEnd == 12 + |Encoding(name)| + 4
  {
    EncodedName(dns, name);
    assert dns[12 + |Encoding(name)| - 1] == dns[12..12 + |Encoding(name)|][|Encoding(name)| - 1] == 0;
  }

  /** A question built from an encoded name is read back whole: the name in lower case, the
      type, the class and the exact end. */
  lemma EncodedNameParses(header: seq<byte>, name: seq<byte>, qtype: nat, qclass: nat, rest: seq<byte>)
    requires |header| == 12 && Read16(header, 4) >= 1
    requires Encodable(name) && qtype < 65536 && qclass < 65536
    ensures var dns := header + Encoding(name) + Word(qtype) + Word(qclass) + rest;
            IsQuery(dns) && QueryOf(dns) ==
              Query(Read16(header, 0), Read16(header, 2), Lower(name), qtype, qclass, 12 + |Encoding(name)| + 4)
  {
    var code := Encoding(name);
    var dns := header + code + Word(qtype) + Word(qclass) + rest;
    var e := 12 + |code|;
    assert dns[0..12] == header && dns[12..e] == code;
    assert dns[e..e + 2] == Word(qtype) && dns[e + 2..e + 4] == Word(qclass);
    assert Read16(dns, 0) == Read16(header, 0) && Read16(dns, 2) == Read16(header, 2) &&
      Read16(dns, 4) == Read16(header, 4);
    ReadSlice(dns, e, e + 2);
    ReadSlice(dns, e + 2, e + 4);
    EncodedQuestion(dns, name);
  }

  lemma ReadSlice(dns: seq<byte>, lo: nat, hi: nat)
    requires lo + 2 == hi <= |dns|
    ensures Read16(dns, lo) == Read16(dns[lo..hi], 0)
  {
  }
}
