/** Names as lists of labels (section 2.3.4 of RFC 1035): which texts are names, and what is written for
    them (EncodeName in src/dns/message.cpp:129-168). */
module LabelNames {
  import opened Bytes
  import opened NameCodec

  predicate IsLabel(piece: seq<byte>) {
    1 <= |piece| <= 63 && 46 !in piece
  }

  predicate AreLabels(labels: seq<seq<byte>>) {
    forall i :: 0 <= i < |labels| ==> IsLabel(labels[i])
  }

  /** The labels with dots between them. */
  function Text(labels: seq<seq<byte>>): seq<byte>
    requires |labels| > 0
  {
    if |labels| == 1 then labels[0] else labels[0] + [46] + Text(labels[1..])
  }

  /** Each label behind its length, and the root. */
  function Wire(labels: seq<seq<byte>>): seq<byte>
    requires AreLabels(labels)
  {
    if |labels| == 0 then [0] else [|labels[0]| as byte] + labels[0] + Wire(labels[1..])
  }

  // ---- From labels to the text ----------------------------------------------------------------

  lemma {:induction false} NextDotIs(name: seq<byte>, start: nat, e: nat)
    requires start <= e <= |name| && (forall i :: start <= i < e ==> name[i] != 46) && (e < |name| ==> name[e] == 46)
    ensures NextDot(name, start) == e
    decreases e - start
  {
    if start < e { NextDotIs(name, start + 1, e); }
  }

  /** The text from `start` on is these labels. */
  predicate Lies(name: seq<byte>, start: nat, labels: seq<seq<byte>>) {
    start <= |name| && |labels| > 0 && AreLabels(labels) && name[start..] == Text(labels)
  }

  lemma FirstLies(name: seq<byte>, start: nat, labels: seq<seq<byte>>)
    requires Lies(name, start, labels)
    ensures var e := start + |labels[0]|;
            && e <= |name| && name[start..e] == labels[0] && NextDot(name, start) == e
            && (e == |name| <==> |labels| == 1) && (e < |name| ==> name[e] == 46 && Lies(name, e + 1, labels[1..]))
  {
    var rest, e := name[start..], start + |labels[0]|;
    var piece := labels[0];
    assert rest[..|piece|] == piece;
    assert name[start..e] == piece;
    forall i | start <= i < e ensures name[i] != 46 { assert name[i] == piece[i - start]; }
    if |labels| > 1 {
      assert rest == piece + ([46] + Text(labels[1..]));
      assert name[e] == rest[|piece|] == 46;
      assert name[e + 1..] == rest[|piece| + 1..] == Text(labels[1..]);
    }
    NextDotIs(name, start, e);
  }

  /** Every label of the text fits, and nothing else is taken for the start of one. */
  lemma {:induction false} LabelsFit(name: seq<byte>, start: nat, labels: seq<seq<byte>>)
    requires Lies(name, start, labels) && LabelStart(name, start)
    ensures forall i :: start <= i <= |name| ==> LabelFits(name, i)
    decreases |labels|
  {
    FirstLies(name, start, labels);
    var e := start + |labels[0]|;
    forall i | start <= i <= e ensures LabelFits(name, i) {
      if i > start { assert name[i - 1] == labels[0][i - 1 - start]; }
    }
    if e < |name| { LabelsFit(name, e + 1, labels[1..]); }
  }

  /** From `start` on the encoding is the labels behind their lengths. */
  lemma {:induction false} EncodedFrom(name: seq<byte>, start: nat, labels: seq<seq<byte>>)
    requires name != [] && Encodable(name) && Lies(name, start, labels) && LabelStart(name, start)
    ensures Encoding(name)[start..] == Wire(labels)
    decreases |labels|
  {
    FirstLies(name, start, labels);
    var e := start + |labels[0]|;
    PieceEncoded(name, start, e, labels[0]);
    if e < |name| { EncodedFrom(name, e + 1, labels[1..]); } else { RootEncoded(name, labels[1..]); }
    Joined(Encoding(name), start, e + 1, [|labels[0]| as byte] + labels[0], Wire(labels[1..]));
  }

  lemma RootEncoded(name: seq<byte>, none: seq<seq<byte>>)
    requires name != [] && Encodable(name) && |none| == 0
    ensures Encoding(name)[|name| + 1..] == Wire(none)
  {
  }

  lemma Joined(code: seq<byte>, start: nat, mid: nat, first: seq<byte>, rest: seq<byte>)
    requires start <= mid <= |code| && code[start..mid] == first && code[mid..] == rest
    ensures code[start..] == first + rest
  {
  }

  lemma PieceEncoded(name: seq<byte>, start: nat, e: nat, piece: seq<byte>)
    requires name != [] && Encodable(name) && start < e <= |name| && LabelStart(name, start)
    requires NextDot(name, start) == e && name[start..e] == piece && IsLabel(piece)
    ensures |Encoding(name)| == |name| + 2 && Encoding(name)[start..e + 1] == [|piece| as byte] + piece
  {
    forall i | start <= i <= e ensures Encoding(name)[i] == ([|piece| as byte] + piece)[i - start] {
      LabelByte(name, start, e, i);
      assert Encoding(name)[i] == WireByte(name, i);
    }
  }

  /** What is written for a text of labels, if it has at most 253 characters, is the labels behind their
      lengths and a zero byte. */
  lemma EncodingIsWire(labels: seq<seq<byte>>)
    requires |labels| > 0 && AreLabels(labels) && |Text(labels)| <= 253
    ensures Encodable(Text(labels)) && Encoding(Text(labels)) == Wire(labels)
  {
    var name := Text(labels);
    assert name[0..] == name;
    FirstLies(name, 0, labels);
    LabelsFit(name, 0, labels);
    EncodedFrom(name, 0, labels);
    assert Encoding(name)[0..] == Encoding(name);
  }

  // ---- From the text to labels ----------------------------------------------------------------

  lemma {:induction false} LabelsOf(name: seq<byte>, start: nat) returns (labels: seq<seq<byte>>)
    requires start <= |name| && LabelStart(name, start) && forall i :: start <= i <= |name| ==> LabelFits(name, i)
    ensures Lies(name, start, labels)
    decreases |name| - start
  {
    var e := NextDot(name, start);
    assert LabelFits(name, start);
    var piece := name[start..e];
    if e == |name| {
      labels := [piece];
      assert name[start..] == piece;
    } else {
      var rest := LabelsOf(name, e + 1);
      labels := [piece] + rest;
      assert labels[1..] == rest;
      assert name[start..] == piece + [46] + name[e + 1..];
    }
  }

  /** A text can be encoded if and only if it is the root, or labels of 1 to 63 bytes with dots between
      them, of at most 253 characters. */
  lemma EncodableIff(name: seq<byte>)
    ensures Encodable(name) <==>
            name == [] || (|name| <= 253 && exists labels :: Lies(name, 0, labels) && name == Text(labels))
  {
    assert name[0..] == name;
    if name != [] && Encodable(name) {
      var labels := LabelsOf(name, 0);
      assert Lies(name, 0, labels) && name == Text(labels);
    }
    if |name| <= 253 && exists labels :: Lies(name, 0, labels) && name == Text(labels) {
      var labels :| Lies(name, 0, labels) && name == Text(labels);
      EncodingIsWire(labels);
    }
  }
}
