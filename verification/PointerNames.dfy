/** Which name a compressed name is (src/dns/message.cpp:85-106; section 4.1.4 of RFC 1035): stated by
    the bytes on the wire and the 14 bits of a pointer, not by single hops. */
module PointerNames {
  import opened Bytes
  import opened NameWalk
  import opened NameCodec

  // ---- The bytes a name can begin with --------------------------------------------------------

  /** Where the two bytes at `pos` point to, if their first two bits say that they are a pointer. */
  predicate PointsTo(dns: seq<byte>, pos: nat, target: nat) {
    pos + 2 <= |dns| && target < 0x4000 && Read16(dns, pos) == 0xC000 + target
  }

  /** A name begins at a zero byte, at a label of 1 to 63 bytes with a name behind it, or, where pointers
      are followed, at one that points before itself to a name; and nowhere else. */
  lemma HasNameIff(dns: seq<byte>, pos: nat, follow: bool)
    ensures HasName(dns, pos, follow) <==>
            pos < |dns| &&
            (|| dns[pos] == 0
             || (1 <= dns[pos] <= 63 && pos + 1 + dns[pos] as nat < |dns| &&
                 HasName(dns, pos + 1 + dns[pos] as nat, follow))
             || (follow && exists target: nat ::
                   target < pos && PointsTo(dns, pos, target) && HasName(dns, target, follow)))
  {
    if pos < |dns| {
      if dns[pos] == 0 {
        assert ReachesRoot(dns, pos, follow, 0);
      } else if dns[pos] <= 63 {
        LabelIff(dns, pos, follow);
      } else {
        PointerIff(dns, pos, follow);
      }
    }
  }

  lemma LabelIff(dns: seq<byte>, pos: nat, follow: bool)
    requires pos < |dns| && 1 <= dns[pos] <= 63
    ensures HasName(dns, pos, follow) <==>
            pos + 1 + dns[pos] as nat < |dns| && HasName(dns, pos + 1 + dns[pos] as nat, follow)
  {
    var next := pos + 1 + dns[pos] as nat;
    if next <= |dns| { NameAfterHop(dns, pos, next, follow); }
    if next == |dns| { assert forall hops: nat :: !ReachesRoot(dns, next, follow, hops); }
  }

  lemma PointerIff(dns: seq<byte>, pos: nat, follow: bool)
    requires pos < |dns| && 64 <= dns[pos]
    ensures HasName(dns, pos, follow) <==>
            follow && exists target: nat :: target < pos && PointsTo(dns, pos, target) && HasName(dns, target, follow)
  {
    if follow && pos + 2 <= |dns| && Read16(dns, pos) >= 0xC000 && Read16(dns, pos) - 0xC000 < pos {
      var target := Read16(dns, pos) - 0xC000;
      assert HopAt(dns, pos, follow) == Pointer(target);
      NameAfterHop(dns, pos, target, follow);
      assert PointsTo(dns, pos, target);
    } else {
      assert HopAt(dns, pos, follow).Halt?;
    }
  }

  // ---- Labels and what is behind them ---------------------------------------------------------

  /** The labels of `name` lie at `at`, whatever closes them. */
  predicate LabelsAt(dns: seq<byte>, at: nat, name: seq<byte>) {
    && name != [] && Encodable(name) && at + |name| + 1 <= |dns|
    && forall i :: 0 <= i <= |name| ==> dns[at + i] == WireByte(name, i)
  }

  lemma LabelLies(dns: seq<byte>, at: nat, name: seq<byte>, start: nat, e: nat)
    requires LabelsAt(dns, at, name) && start <= |name| && LabelStart(name, start) && e == NextDot(name, start)
    ensures start < e && (e < |name| ==> LabelStart(name, e + 1))
    ensures HopAt(dns, at + start, true) == Label(at + (e + 1))
    ensures dns[at + start + 1..at + (e + 1)] == name[start..e]
  {
    assert LabelFits(name, start);
    assert dns[at + start] == WireByte(name, start);
    forall i | 0 <= i < e - start ensures dns[at + start + 1..at + (e + 1)][i] == name[start..e][i] {
      assert dns[at + (start + 1 + i)] == WireByte(name, start + 1 + i);
    }
  }

  /** What the walk that follows pointers makes of what was collected before. */
  ghost function FollowedText(dns: seq<byte>, pos: nat, hops: nat, acc: seq<byte>): seq<byte>
    requires ReachesRoot(dns, pos, true, hops)
  {
    TextFrom(dns, pos, true, hops, acc)
  }

  /** The walk collects the labels and goes on behind them. */
  lemma {:induction false} LabelsRead(dns: seq<byte>, at: nat, name: seq<byte>, start: nat, acc: seq<byte>, n: nat)
    returns (hops: nat)
    requires LabelsAt(dns, at, name) && start <= |name| && LabelStart(name, start)
    requires ReachesRoot(dns, at + (|name| + 1), true, n)
    ensures ReachesRoot(dns, at + start, true, hops)
    ensures FollowedText(dns, at + start, hops, acc) ==
            FollowedText(dns, at + (|name| + 1), n, Collected(name, start, acc))
    ensures LabelRun(dns, at + start) == LabelRun(dns, at + (|name| + 1))
    decreases |name| - start
  {
    var e := NextDot(name, start);
    LabelLies(dns, at, name, start, e);
    if e < |name| {
      hops := LabelsRead(dns, at, name, e + 1, Dotted(acc, name[start..e]), n);
    } else {
      hops := n;
    }
    LabelStep(dns, at + start, at + (e + 1), hops, acc);
    hops := hops + 1;
  }

  lemma LabelStep(dns: seq<byte>, pos: nat, next: nat, hops: nat, acc: seq<byte>)
    requires HopAt(dns, pos, true) == Label(next) && ReachesRoot(dns, next, true, hops)
    ensures ReachesRoot(dns, pos, true, hops + 1) && pos + 1 <= next <= |dns|
    ensures FollowedText(dns, pos, hops + 1, acc) == FollowedText(dns, next, hops, Dotted(acc, dns[pos + 1..next]))
    ensures LabelRun(dns, pos) == LabelRun(dns, next)
  {
  }

  /** A name in full, read by a walk that follows pointers too. */
  lemma WholeNameRead(dns: seq<byte>, base: nat, name: seq<byte>, acc: seq<byte>) returns (hops: nat)
    requires OnWire(dns, base, name)
    ensures ReachesRoot(dns, base, true, hops)
    ensures IsRest(FollowedText(dns, base, hops, acc), acc, name)
  {
    assert HopAt(dns, base + (|name| + 1), true) == Root;
    hops := LabelsRead(dns, base, name, 0, acc, 0);
    CollectedIsRest(name, 0, acc);
    assert name[0..] == name;
  }

  lemma PointerStep(dns: seq<byte>, pos: nat, base: nat, hops: nat, acc: seq<byte>)
    requires PointsTo(dns, pos, base) && base < pos && ReachesRoot(dns, base, true, hops)
    ensures HopAt(dns, pos, true) == Pointer(base) && ReachesRoot(dns, pos, true, hops + 1)
    ensures FollowedText(dns, pos, hops + 1, acc) == FollowedText(dns, base, hops, acc)
    ensures LabelRun(dns, pos) == pos
  {
  }

  // ---- Compressed names -----------------------------------------------------------------------

  /** A pointer stands for the name at the offset its 14 bits give. */
  lemma PointerNamesItsTarget(dns: seq<byte>, pos: nat, base: nat, name: seq<byte>)
    requires OnWire(dns, base, name) && base < pos && PointsTo(dns, pos, base)
    ensures HasName(dns, pos, true) && NameText(dns, pos, true) == Lower(name)
    ensures ReportedEnd(dns, pos) == WireEnd(dns, pos) == pos + 2
  {
    var hops := WholeNameRead(dns, base, name, []);
    PointerStep(dns, pos, base, hops, []);
    NameTextIs(dns, pos, true, hops + 1);
  }

  /** Labels followed by a pointer stand for the labels and the name pointed to, though the offset
      reported lies inside the labels. */
  lemma LabelsThenPointer(dns: seq<byte>, at: nat, host: seq<byte>, base: nat, name: seq<byte>)
    requires LabelsAt(dns, at, host) && OnWire(dns, base, name)
    requires base < at + (|host| + 1) && PointsTo(dns, at + (|host| + 1), base)
    ensures HasName(dns, at, true) && NameText(dns, at, true) == Lower(host + [DOT] + name)
    ensures ReportedEnd(dns, at) == at + 2 && WireEnd(dns, at) == at + |host| + 3
  {
    var acc := Collected(host, 0, []);
    var n := WholeNameRead(dns, base, name, acc);
    PointerStep(dns, at + (|host| + 1), base, n, acc);
    var hops := LabelsRead(dns, at, host, 0, [], n + 1);
    NameTextIs(dns, at, true, hops);
    CollectedIsRest(host, 0, []);
    assert host[0..] == host;
    assert acc == Lower(host);
    JoinedText(host, name);
  }

  lemma JoinedText(host: seq<byte>, name: seq<byte>)
    requires host != []
    ensures Lead(Lower(host)) + Lower(name) == Lower(host + [DOT] + name)
  {
    LowerConcat(host + [DOT], name);
    LowerConcat(host, [DOT]);
    var dot := [DOT];
    assert Lower(dot) == dot by { assert dot[1..] == []; }
  }
}
