/** How often the guardian may put the policy rule back (src/dns/redirector.cpp:34-41,
    src/dns/redirector.h:62-63). */
module RepairBudget {
  const WINDOW_MS := 60000
  const MAX_REPAIRS := 5

  datatype Budget = Budget(started: bool, windowStart: nat, used: nat)

  const UNUSED := Budget(false, 0, 0)

  function Asked(b: Budget, now: nat): Budget {
    if !b.started || now - b.windowStart >= WINDOW_MS then Budget(true, now, 1) else b.(used := b.used + 1)
  }

  class Repairs {
    var started: bool
    var windowStart: nat
    var used: nat

    ghost function View(): Budget
      reads this
    {
      Budget(started, windowStart, used)
    }

    constructor ()
      ensures View() == UNUSED
    {
      started, windowStart, used := false, 0, 0;
    }

    method Allow(now: nat) returns (allowed: bool)
      modifies this
      ensures View() == Asked(old(View()), now)
      ensures allowed == (View().used <= MAX_REPAIRS)
    {
      if !started || now - windowStart >= WINDOW_MS {
        started := true;
        windowStart := now;
        used := 0;
      }
      used := used + 1;
      return used <= MAX_REPAIRS;
    }
  }

  predicate Monotone(times: seq<nat>) {
    forall i, j :: 0 <= i < j < |times| ==> times[i] <= times[j]
  }

  /** How many of the calls at `times` are allowed at a time in [lo, hi). */
  function AllowedIn(b: Budget, times: seq<nat>, lo: nat, hi: nat): nat
    decreases |times|
  {
    if times == [] then 0
    else
      var next := Asked(b, times[0]);
      (if next.used <= MAX_REPAIRS && lo <= times[0] < hi then 1 else 0) + AllowedIn(next, times[1..], lo, hi)
  }

  function Left(b: Budget): nat {
    if b.started && b.used <= MAX_REPAIRS then MAX_REPAIRS - b.used else 0
  }

  lemma {:induction false} NoneLater(b: Budget, times: seq<nat>, lo: nat)
    requires Monotone(times) && (times != [] ==> times[0] >= lo + WINDOW_MS)
    ensures AllowedIn(b, times, lo, lo + WINDOW_MS) == 0
    decreases |times|
  {
    if times != [] { NoneLater(Asked(b, times[0]), times[1..], lo); }
  }

  /** From a window that began at or after `lo`, only what it has left. */
  lemma {:induction false} OneWindow(b: Budget, times: seq<nat>, lo: nat)
    requires Monotone(times) && b.started && lo <= b.windowStart && (times != [] ==> b.windowStart <= times[0])
    ensures AllowedIn(b, times, lo, lo + WINDOW_MS) <= Left(b)
    decreases |times|
  {
    if times != [] {
      if times[0] >= b.windowStart + WINDOW_MS { NoneLater(b, times, lo); }
      else { OneWindow(Asked(b, times[0]), times[1..], lo); }
    }
  }

  /** What is left of the window the interval begins in, and one window more. */
  lemma {:induction false} TwoWindows(b: Budget, times: seq<nat>, lo: nat)
    requires Monotone(times) && b.started && b.windowStart < lo && (times != [] ==> lo <= times[0])
    ensures AllowedIn(b, times, lo, lo + WINDOW_MS) <= Left(b) + MAX_REPAIRS
    decreases |times|
  {
    if times != [] {
      var next := Asked(b, times[0]);
      if next.windowStart < lo { TwoWindows(next, times[1..], lo); } else { OneWindow(next, times[1..], lo); }
    }
  }

  /** Windows that begin before the interval do, one after the other. */
  lemma {:induction false} AtMostNineFrom(b: Budget, times: seq<nat>, lo: nat)
    requires Monotone(times) && b.started && b.used >= 1 && b.windowStart < lo
    requires times != [] ==> b.windowStart <= times[0]
    ensures AllowedIn(b, times, lo, lo + WINDOW_MS) <= 9
    decreases |times|
  {
    if times != [] {
      if times[0] < lo { AtMostNineFrom(Asked(b, times[0]), times[1..], lo); } else { TwoWindows(b, times, lo); }
    }
  }

  /** No half-open interval of 60000 ms sees more than 9 repairs allowed, and none that no call
      precedes sees more than 5. */
  lemma AtMostNine(times: seq<nat>, lo: nat)
    requires Monotone(times)
    ensures AllowedIn(UNUSED, times, lo, lo + WINDOW_MS) <= 9
    ensures times != [] && lo <= times[0] ==> AllowedIn(UNUSED, times, lo, lo + WINDOW_MS) <= 5
  {
    if times != [] {
      var next := Asked(UNUSED, times[0]);
      if times[0] < lo { AtMostNineFrom(next, times[1..], lo); } else { OneWindow(next, times[1..], lo); }
    }
  }

  function Repeated(n: nat, now: nat): seq<nat> {
    seq(n, _ => now)
  }

  lemma {:induction false} RepeatedAllowed(b: Budget, n: nat, now: nat, lo: nat, rest: seq<nat>)
    requires b.started && b.windowStart <= now < b.windowStart + WINDOW_MS && b.used + n <= MAX_REPAIRS
    requires lo <= now < lo + WINDOW_MS
    ensures AllowedIn(b, Repeated(n, now) + rest, lo, lo + WINDOW_MS) ==
              n + AllowedIn(b.(used := b.used + n), rest, lo, lo + WINDOW_MS)
    decreases n
  {
    var times := Repeated(n, now) + rest;
    if n == 0 {
      assert times == rest;
    } else {
      assert times[1..] == Repeated(n - 1, now) + rest;
      RepeatedAllowed(b.(used := b.used + 1), n - 1, now, lo, rest);
    }
  }

  /** Nine do happen: one repair, four just before its window ends and five just after are all
      allowed, nine of them within two milliseconds. */
  lemma NineHappen()
    ensures var times := [0] + (Repeated(4, 59999) + (Repeated(5, 60000) + []));
            Monotone(times) && AllowedIn(UNUSED, times, 59999, 59999 + WINDOW_MS) == 9
  {
    var tail := Repeated(5, 60000) + [];
    var times := [0] + (Repeated(4, 59999) + tail);
    assert times[1..] == Repeated(4, 59999) + tail;
    RepeatedAllowed(Budget(true, 0, 1), 4, 59999, 59999, tail);
    assert tail[0] == 60000 && tail[1..] == Repeated(4, 60000) + [];
    RepeatedAllowed(Budget(true, 60000, 1), 4, 60000, 59999, []);
  }
}
