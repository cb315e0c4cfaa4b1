/** Walking a compressed DNS name (WalkName in src/dns/message.cpp).

    The walk is stated as a relation between one position and the next (`Hop`), with
    no cap on how many hops are taken. The method below carries the cap the program
    has, and is proved to succeed exactly when the uncapped walk reaches a root label. */
module NameWalk {
  import opened Bytes

  const MAX_NAME_CHARS := 253

  /** What the byte at one position means. `Halt` covers every reason to give up. */
  datatype Hop = Halt | Root | Label(next: nat) | Pointer(target: nat)

  function HopAt(dns: seq<byte>, pos: nat, follow: bool): Hop {
    if pos >= |dns| then Halt
    else
      var lead := dns[pos] as nat;
      if lead == 0 then Root
      else if lead >= 0xC0 then
        if !follow || pos + 1 >= |dns| then Halt
        else
          var target := (lead - 0xC0) * 256 + dns[pos + 1] as int;
          if target >= pos then Halt else Pointer(target)
      else if lead >= 0x40 then Halt
      else if pos + 1 + lead > |dns| then Halt
      else Label(pos + 1 + lead)
  }

  /** The walk from `pos` arrives at a root label after exactly `hops` hops. */
  ghost predicate ReachesRoot(dns: seq<byte>, pos: nat, follow: bool, hops: nat)
    decreases hops
  {
    match HopAt(dns, pos, follow)
    case Halt => false
    case Root => hops == 0
    case Label(next) => hops > 0 && ReachesRoot(dns, next, follow, hops - 1)
    case Pointer(target) => hops > 0 && ReachesRoot(dns, target, follow, hops - 1)
  }

  /** A name starts at `pos`: the uncapped walk ends at a root label in bounds. */
  ghost predicate HasName(dns: seq<byte>, pos: nat, follow: bool) {
    exists hops: nat :: ReachesRoot(dns, pos, follow, hops)
  }

  /** One more label on a dotted, lowercased name under construction. */
  function Dotted(acc: seq<byte>, text: seq<byte>): seq<byte> {
    (if acc == [] then [] else acc + [DOT]) + Lower(text)
  }

  /** The dotted text of the name at `pos`, appended to `acc`. */
  ghost function TextFrom(dns: seq<byte>, pos: nat, follow: bool, hops: nat, acc: seq<byte>): (text: seq<byte>)
    requires ReachesRoot(dns, pos, follow, hops)
    ensures |acc| <= |text|
    decreases hops
  {
    match HopAt(dns, pos, follow)
    case Root => acc
    case Label(next) => TextFrom(dns, next, follow, hops - 1, Dotted(acc, dns[pos + 1..next]))
    case Pointer(target) => TextFrom(dns, target, follow, hops - 1, acc)
  }

  ghost function NameText(dns: seq<byte>, pos: nat, follow: bool): seq<byte>
    requires HasName(dns, pos, follow)
  {
    var hops: nat :| ReachesRoot(dns, pos, follow, hops);
    TextFrom(dns, pos, follow, hops, [])
  }

  /** Where the run of plain labels starting at `pos` stops. */
  function LabelRun(dns: seq<byte>, pos: nat): (e: nat)
    ensures pos <= e
    decreases |dns| - pos
  {
    if HopAt(dns, pos, true).Label? then LabelRun(dns, HopAt(dns, pos, true).next) else pos
  }

  /** The name is closed by a pointer rather than by its own root label. */
  predicate EndsInPointer(dns: seq<byte>, pos: nat) {
    HopAt(dns, LabelRun(dns, pos), true).Pointer?
  }

  /** One past the name as RFC 1035 section 4.1.4 lays it out on the wire. */
  function WireEnd(dns: seq<byte>, pos: nat): nat {
    LabelRun(dns, pos) + (if EndsInPointer(dns, pos) then 2 else 1)
  }

  /** The offset the program reports: `pos + 2` whenever any pointer was followed. */
  function ReportedEnd(dns: seq<byte>, pos: nat): nat {
    if EndsInPointer(dns, pos) then pos + 2 else LabelRun(dns, pos) + 1
  }

  // ---- Distance to the root ---------------------------------------------------------

  lemma {:induction false} DistanceUnique(dns: seq<byte>, pos: nat, follow: bool, a: nat, b: nat)
    requires ReachesRoot(dns, pos, follow, a) && ReachesRoot(dns, pos, follow, b)
    ensures a == b
    decreases a
  {
    match HopAt(dns, pos, follow)
    case Root =>
    case Label(next) => DistanceUnique(dns, next, follow, a - 1, b - 1);
    case Pointer(target) => DistanceUnique(dns, target, follow, a - 1, b - 1);
  }

  /** The positions a successful walk visits. */
  ghost function Visited(dns: seq<byte>, pos: nat, follow: bool, hops: nat): set<nat>
    requires ReachesRoot(dns, pos, follow, hops)
    decreases hops
  {
    match HopAt(dns, pos, follow)
    case Root => {pos}
    case Label(next) => {pos} + Visited(dns, next, follow, hops - 1)
    case Pointer(target) => {pos} + Visited(dns, target, follow, hops - 1)
  }

  ghost predicate WithinHops(dns: seq<byte>, pos: nat, follow: bool, hops: nat) {
    pos < |dns| && exists d: nat :: d <= hops && ReachesRoot(dns, pos, follow, d)
  }

  /** No position is visited twice, since each has its own distance to the root. */
  lemma {:induction false} VisitedDistinct(dns: seq<byte>, pos: nat, follow: bool, hops: nat)
    requires ReachesRoot(dns, pos, follow, hops)
    ensures |Visited(dns, pos, follow, hops)| == hops + 1
    ensures forall p: nat :: p in Visited(dns, pos, follow, hops) ==> WithinHops(dns, p, follow, hops)
    decreases hops
  {
    if hops > 0 {
      var next := if HopAt(dns, pos, follow).Label? then HopAt(dns, pos, follow).next
        else HopAt(dns, pos, follow).target;
      VisitedDistinct(dns, next, follow, hops - 1);
      var rest := Visited(dns, next, follow, hops - 1);
      assert pos !in rest by {
        if pos in rest {
          var d: nat :| d <= hops - 1 && ReachesRoot(dns, pos, follow, d);
          DistanceUnique(dns, pos, follow, d, hops);
        }
      }
      assert Visited(dns, pos, follow, hops) == {pos} + rest;
      forall p: nat | p in rest ensures WithinHops(dns, p, follow, hops) {
        assert WithinHops(dns, p, follow, hops - 1);
      }
    }
    assert WithinHops(dns, pos, follow, hops);
  }

  /** A walk that succeeds needs fewer hops than the message has bytes. */
  lemma HopsBelowLength(dns: seq<byte>, pos: nat, follow: bool, hops: nat)
    ensures ReachesRoot(dns, pos, follow, hops) ==> hops < |dns|
  {
    if ReachesRoot(dns, pos, follow, hops) {
      VisitedDistinct(dns, pos, follow, hops);
      BoundedSetSize(Visited(dns, pos, follow, hops), |dns|);
    }
  }

  // ---- The reported offset -------------------------------------------------------------

  /** The reported offset is the wire end exactly for names that are labels only or
      start with a pointer. For labels followed by a pointer, which section 4.1.4 of
      RFC 1035 allows, it falls short of the pointer itself. */
  lemma ReportedEndIsWireEnd(dns: seq<byte>, pos: nat)
    ensures ReportedEnd(dns, pos) == WireEnd(dns, pos) <==>
            !(EndsInPointer(dns, pos) && HopAt(dns, pos, true).Label?)
    ensures EndsInPointer(dns, pos) && HopAt(dns, pos, true).Label? ==>
              pos < ReportedEnd(dns, pos) <= LabelRun(dns, pos) < WireEnd(dns, pos)
  {
    if HopAt(dns, pos, true).Label? {
      assert pos + 2 <= HopAt(dns, pos, true).next;
    }
  }

  /** A backward pointer is not enough to rule out a cycle: here every hop is legal and
      none of them is the last, so only the hop cap ends the walk. */
  lemma {:induction false} BackwardPointersCanCycle(hops: nat)
    ensures var dns: seq<byte> := [1, 97, 0xC0, 0];
            && HopAt(dns, 0, true) == Label(2)
            && HopAt(dns, 2, true) == Pointer(0)
            && !ReachesRoot(dns, 0, true, hops)
  {
    var dns: seq<byte> := [1, 97, 0xC0, 0];
    if hops >= 2 {
      BackwardPointersCanCycle(hops - 2);
      assert HopAt(dns, 2, true) == Pointer(0);
      assert ReachesRoot(dns, 0, true, hops) == ReachesRoot(dns, 2, true, hops - 1);
      assert ReachesRoot(dns, 2, true, hops - 1) == ReachesRoot(dns, 0, true, hops - 2);
    } else if hops == 1 {
      assert !ReachesRoot(dns, 2, true, 0);
    }
  }

  // ---- The walk itself -----------------------------------------------------------------

  lemma NameAfterHop(dns: seq<byte>, pos: nat, next: nat, follow: bool)
    requires HopAt(dns, pos, follow) == Label(next) || HopAt(dns, pos, follow) == Pointer(next)
    ensures HasName(dns, pos, follow) <==> HasName(dns, next, follow)
  {
    if HasName(dns, next, follow) {
      var n: nat :| ReachesRoot(dns, next, follow, n);
      assert ReachesRoot(dns, pos, follow, n + 1);
    }
    if HasName(dns, pos, follow) {
      var n: nat :| ReachesRoot(dns, pos, follow, n);
      assert ReachesRoot(dns, next, follow, n - 1);
    }
  }

  lemma NameTextIs(dns: seq<byte>, pos: nat, follow: bool, hops: nat)
    requires ReachesRoot(dns, pos, follow, hops)
    ensures HasName(dns, pos, follow)
    ensures NameText(dns, pos, follow) == TextFrom(dns, pos, follow, hops, [])
  {
    var n: nat :| ReachesRoot(dns, pos, follow, n) && NameText(dns, pos, follow) == TextFrom(dns, pos, follow, n, []);
    DistanceUnique(dns, pos, follow, n, hops);
  }

  ghost function Distance(dns: seq<byte>, pos: nat, follow: bool): (hops: nat)
    requires HasName(dns, pos, follow)
    ensures ReachesRoot(dns, pos, follow, hops) && hops < |dns|
  {
    var hops: nat :| ReachesRoot(dns, pos, follow, hops);
    HopsBelowLength(dns, pos, follow, hops);
    hops
  }

  /** The name at `start`. `out` stands for the optional output string: None when the caller
      only skips. The loop looks at no more than `|dns| + 1` positions, and this cap is exact:
      without an output string the method succeeds if and only if the uncapped walk reaches a
      root label, whatever the pointers do. A failed walk leaves `out` alone, and `off` either
      alone or just past the first pointer it followed. */
  method WalkName(dns: seq<byte>, start: nat, follow: bool, out: Option<seq<byte>>)
    returns (ok: bool, off: nat, out': Option<seq<byte>>)
    ensures ok <==> HasName(dns, start, follow) && (out.Some? ==> |NameText(dns, start, follow)| <= MAX_NAME_CHARS)
    ensures ok ==> off == ReportedEnd(dns, start)
    ensures ok && out.Some? ==> out' == Some(NameText(dns, start, follow))
    ensures !ok || out.None? ==> out' == out
    ensures !ok ==> off == start || (EndsInPointer(dns, start) && off == LabelRun(dns, start) + 2)
  {
    ok, off, out' := false, start, out;
    var left := false;
    var pos: nat := start;
    var collected: seq<byte> := [];
    ghost var named := HasName(dns, start, follow);
    ghost var dist := if named then Distance(dns, start, follow) else 0;
    ghost var text := if named then TextFrom(dns, start, follow, dist, []) else [];
    if named { NameTextIs(dns, start, follow, dist); }
    var hops: nat := 0;
    while hops <= |dns|
      invariant 0 <= hops <= |dns| + 1
      invariant named ==> hops <= dist && ReachesRoot(dns, pos, follow, dist - hops)
      invariant named && out.Some? ==> text == TextFrom(dns, pos, follow, dist - hops, collected)
      invariant !named ==> !HasName(dns, pos, follow)
      invariant |collected| <= MAX_NAME_CHARS
      invariant !left ==> off == start && LabelRun(dns, pos) == LabelRun(dns, start)
      invariant left ==> EndsInPointer(dns, start) && off == LabelRun(dns, start) + 2
    {
      if pos >= |dns| { return; }
      var lead := dns[pos] as nat;
      if lead == 0 {
        assert ReachesRoot(dns, pos, follow, 0);
        pos := pos + 1;
        off := if left then start + 2 else pos;
        if out.Some? { out' := Some(collected); }
        ok := true;
        return;
      }
      if lead >= 0xC0 {
        if !follow { return; }
        if pos + 1 >= |dns| { return; }
        var target := (lead - 0xC0) * 256 + dns[pos + 1] as int;
        if target >= pos { return; }
        if !left {
          left := true;
          off := pos + 2;
        }
        NameAfterHop(dns, pos, target, follow);
        pos := target;
      } else {
        if lead >= 0x40 { return; }
        if pos + 1 + lead > |dns| { return; }
        var next := pos + 1 + lead;
        NameAfterHop(dns, pos, next, follow);
        if out.Some? {
          collected := Dotted(collected, dns[pos + 1..next]);
          if |collected| > MAX_NAME_CHARS { return; }
        }
        pos := next;
      }
      hops := hops + 1;
    }
  }
}
