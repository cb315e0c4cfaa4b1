/** How long a failing provider is left alone (src/dns/dnscrypt_cert_cache.h:156-161, 207-220,
    316-342), over runs whose clock does not go back and stays clear of the 32-bit wrap. */
module CertBackoff {
  import opened Bytes
  import opened CertCache
  import opened CertSafety

  function NextCooldown(cooldown: nat): nat {
    if 2 * cooldown < MAX_FAILURE_BACKOFF_SECONDS then 2 * cooldown else MAX_FAILURE_BACKOFF_SECONDS
  }

  lemma PowersOfTwo()
    ensures PowerOfTwo(0) == 1 && PowerOfTwo(1) == 2 && PowerOfTwo(2) == 4
    ensures PowerOfTwo(3) == 8 && PowerOfTwo(4) == 16 && PowerOfTwo(5) == 32
  {
    assert PowerOfTwo(1) == 2 * PowerOfTwo(0);
    assert PowerOfTwo(2) == 2 * PowerOfTwo(1);
    assert PowerOfTwo(3) == 2 * PowerOfTwo(2);
    assert PowerOfTwo(4) == 2 * PowerOfTwo(3);
  }

  lemma StrikesLengthen(failure: Failure, now: Seconds)
    ensures Cooldown(Struck(failure, now).strikes) == NextCooldown(Cooldown(failure.strikes))
    ensures Cooldown(0) == 30
  {
    PowersOfTwo();
  }

  /** The step's caller passes a time no earlier than the last, far enough from the wrap. */
  predicate OnTime(s: State, e: Event) {
    e.EnterE? ==> s.clock <= e.now && e.now + MAX_FAILURE_BACKOFF_SECONDS + FAILURE_FORGET_SECONDS < WRAP
  }

  predicate IsTimelyRun(s: State, events: seq<Event>)
    decreases |events|
  {
    events == [] || (Enabled(s, events[0]) && OnTime(s, events[0]) && IsTimelyRun(Apply(s, events[0]), events[1..]))
  }

  lemma {:induction false} TimelyIsRun(s: State, events: seq<Event>)
    requires IsTimelyRun(s, events)
    ensures IsRun(s, events)
    decreases |events|
  {
    if events != [] { TimelyIsRun(Apply(s, events[0]), events[1..]); }
  }

  /** When the provider may be tried again after this attempt, if it failed. */
  function Retry(a: Attempt): nat {
    a.now + a.cooldown
  }

  /** Whether the record of the failure `a` has been swept by `clock`. */
  predicate Lapsed(a: Attempt, clock: nat) {
    clock > Retry(a) + FAILURE_FORGET_SECONDS
  }

  function Expected(previous: Option<Attempt>, settledAt: nat): nat {
    if previous.Some? && !previous.value.ok && !Lapsed(previous.value, settledAt)
    then NextCooldown(previous.value.cooldown) else FAILURE_BACKOFF_SECONDS
  }

  function Previous(log: seq<Attempt>, k: nat): Option<Attempt>
    requires k <= |log|
  {
    if k == 0 then None else Some(log[k - 1])
  }

  /** The log of one provider: a failed attempt is followed only after its cooldown, and each
      cooldown is the double of the one before it, up to the ceiling, or the first one again. */
  predicate Spaced(log: seq<Attempt>, clock: nat) {
    forall k :: 0 <= k < |log| ==> SpacedAt(log, clock, k)
  }

  predicate SpacedAt(log: seq<Attempt>, clock: nat, k: nat)
    requires k < |log|
  {
    && log[k].now <= log[k].settledAt <= clock
    && log[k].now + MAX_FAILURE_BACKOFF_SECONDS + FAILURE_FORGET_SECONDS < WRAP
    && FAILURE_BACKOFF_SECONDS <= log[k].cooldown <= MAX_FAILURE_BACKOFF_SECONDS
    && (!log[k].ok ==> log[k].cooldown == Expected(Previous(log, k), log[k].settledAt))
    && (k > 0 && !log[k - 1].ok ==> log[k].now > Retry(log[k - 1]))
  }

  predicate LastFailed(log: seq<Attempt>) {
    log != [] && !log[|log| - 1].ok
  }

  /** The cache remembers the last failure until it lapses, and nothing else; a lapsed one is gone
      by the time a fetch can be running. */
  predicate Remembers(s: State, p: Provider) {
    var log := LogOf(s, p);
    if LastFailed(log) then
      var last := log[|log| - 1];
      && (p in s.tables.failures ==>
            s.tables.failures[p].retryAfter == Retry(last) &&
              Cooldown(s.tables.failures[p].strikes) == NextCooldown(last.cooldown))
      && (Lapsed(last, s.clock) ==> p !in s.tables.failures || p !in s.tables.pending)
      && (!Lapsed(last, s.clock) ==> p in s.tables.failures)
    else p !in s.tables.failures
  }

  predicate InTime(s: State, c: CallId)
    requires c in s.calls
  {
    var call := s.calls[c];
    (call.Fetching? || call.Fetched?) ==>
      var log := LogOf(s, call.provider);
      && call.now <= s.clock && call.now + MAX_FAILURE_BACKOFF_SECONDS + FAILURE_FORGET_SECONDS < WRAP
      && (LastFailed(log) ==> call.now > Retry(log[|log| - 1]))
  }

  ghost predicate BacksOff(s: State) {
    && (forall p :: Spaced(LogOf(s, p), s.clock) && Remembers(s, p))
    && (forall c :: c in s.calls ==> InTime(s, c))
  }

  // ---- Steps ----------------------------------------------------------------------------------

  lemma SpacedLater(log: seq<Attempt>, clock: nat, later: nat)
    requires Spaced(log, clock) && clock <= later
    ensures Spaced(log, later)
  {
    forall k | 0 <= k < |log| ensures SpacedAt(log, later, k) { assert SpacedAt(log, clock, k); }
  }

  lemma ForgottenWhenLapsed(failure: Failure, last: Attempt, now: Seconds)
    requires failure.retryAfter == Retry(last) && Retry(last) + FAILURE_FORGET_SECONDS < WRAP
    ensures Forgotten(failure, now) <==> Lapsed(last, now)
  {
  }

  lemma EnterRemembers(s: State, c: CallId, p: Provider, now: Seconds, q: Provider)
    requires c !in s.calls && OnTime(s, EnterE(c, p, now)) && Spaced(LogOf(s, q), s.clock) && Remembers(s, q)
    ensures Remembers(Enter(s, c, p, now), q)
  {
    var log, t := LogOf(s, q), Enter(s, c, p, now);
    assert LogOf(t, q) == log && t.clock == now;
    assert q in t.tables.failures <==> q in s.tables.failures && !Forgotten(s.tables.failures[q], now);
    if LastFailed(log) && q in s.tables.failures {
      assert SpacedAt(log, s.clock, |log| - 1);
      ForgottenWhenLapsed(s.tables.failures[q], log[|log| - 1], now);
    }
  }

  /** The cooldown is what keeps the next fetch away. */
  lemma OwnerIsInTime(s: State, c: CallId, p: Provider, now: Seconds)
    requires c !in s.calls && OnTime(s, EnterE(c, p, now)) && Spaced(LogOf(s, p), s.clock) && Remembers(s, p)
    ensures InTime(Enter(s, c, p, now), c)
  {
    var log := LogOf(s, p);
    EnterRemembers(s, c, p, now, p);
    assert LogOf(Enter(s, c, p, now), p) == log;
  }

  lemma EnterBacksOff(s: State, c: CallId, p: Provider, now: Seconds)
    requires BacksOff(s) && c !in s.calls && OnTime(s, EnterE(c, p, now))
    ensures BacksOff(Enter(s, c, p, now))
  {
    var t := Enter(s, c, p, now);
    forall q ensures Spaced(LogOf(t, q), t.clock) && Remembers(t, q) {
      SpacedLater(LogOf(s, q), s.clock, now);
      EnterRemembers(s, c, p, now, q);
    }
    forall d | d in t.calls ensures InTime(t, d) {
      if d == c { OwnerIsInTime(s, c, p, now); } else { assert InTime(s, d); }
    }
  }

  lemma SpacedThen(log: seq<Attempt>, clock: nat, a: Attempt)
    requires Spaced(log, clock) && a.now <= a.settledAt <= clock
    requires a.now + MAX_FAILURE_BACKOFF_SECONDS + FAILURE_FORGET_SECONDS < WRAP
    requires FAILURE_BACKOFF_SECONDS <= a.cooldown <= MAX_FAILURE_BACKOFF_SECONDS
    requires a.cooldown == Expected(Previous(log, |log|), a.settledAt)
    requires LastFailed(log) ==> a.now > Retry(log[|log| - 1])
    ensures Spaced(log + [a], clock)
  {
    var longer := log + [a];
    forall k | 0 <= k <= |log| ensures SpacedAt(longer, clock, k) {
      assert Previous(longer, k) == Previous(log, k);
      if k < |log| { assert SpacedAt(log, clock, k); }
    }
  }

  /** A fetch that ends after the cooldown found a failure's record exactly if it had not lapsed. */
  lemma StrikesAre(s: State, c: CallId)
    requires BacksOff(s) && Sound(s) && c in s.calls && s.calls[c].Fetched?
    ensures var p := s.calls[c].provider;
            var strikes := if p in s.tables.failures then s.tables.failures[p].strikes else 0;
            Cooldown(strikes) == Expected(Previous(LogOf(s, p), |LogOf(s, p)|), s.clock)
  {
    assert Remembers(s, s.calls[c].provider) && CallSound(s, c);
    StrikesLengthen(Failure(0, 0), 0);
  }

  lemma SettledRemembers(s: State, c: CallId)
    requires Sound(s) && c in s.calls && s.calls[c].Fetched? && s.calls[c].now <= s.clock
    requires s.calls[c].now + MAX_FAILURE_BACKOFF_SECONDS + FAILURE_FORGET_SECONDS < WRAP
    ensures Remembers(Settle(s, c), s.calls[c].provider)
  {
    var call, t := s.calls[c], Settle(s, c);
    var p := call.provider;
    assert CallSound(s, c);
    assert p !in t.tables.pending;
    StrikesLengthen(if p in s.tables.failures then s.tables.failures[p] else Failure(0, 0), call.now);
    var log := LogOf(t, p);
    assert log[|log| - 1].ok == call.cert.valid && Retry(log[|log| - 1]) < WRAP;
  }

  lemma SettledIsSpaced(s: State, c: CallId)
    requires BacksOff(s) && Sound(s) && c in s.calls && s.calls[c].Fetched?
    ensures Spaced(LogOf(Settle(s, c), s.calls[c].provider), s.clock)
  {
    var call, p := s.calls[c], s.calls[c].provider;
    assert Spaced(LogOf(s, p), s.clock) && InTime(s, c);
    StrikesAre(s, c);
    var strikes := if p in s.tables.failures then s.tables.failures[p].strikes else 0;
    SpacedThen(LogOf(s, p), s.clock, Attempt(call.now, call.cert.valid, Cooldown(strikes), s.clock));
  }

  lemma SettleInTime(s: State, c: CallId, d: CallId)
    requires Sound(s) && c in s.calls && s.calls[c].Fetched? && d in s.calls && InTime(s, d)
    ensures InTime(Settle(s, c), d)
  {
    assert CallSound(s, c) && CallSound(s, d);
  }

  lemma OthersKeepTheirs(s: State, c: CallId, q: Provider)
    requires Sound(s) && c in s.calls && s.calls[c].Fetched? && q != s.calls[c].provider
    requires Spaced(LogOf(s, q), s.clock) && Remembers(s, q)
    ensures Spaced(LogOf(Settle(s, c), q), Settle(s, c).clock) && Remembers(Settle(s, c), q)
  {
    assert LogOf(Settle(s, c), q) == LogOf(s, q);
  }

  lemma SettleBacksOff(s: State, c: CallId)
    requires BacksOff(s) && Sound(s) && c in s.calls && s.calls[c].Fetched?
    ensures BacksOff(Settle(s, c))
  {
    var t, p := Settle(s, c), s.calls[c].provider;
    assert InTime(s, c);
    SettledIsSpaced(s, c);
    SettledRemembers(s, c);
    forall q | q != p ensures Spaced(LogOf(t, q), t.clock) && Remembers(t, q) { OthersKeepTheirs(s, c, q); }
    forall d | d in t.calls ensures InTime(t, d) { SettleInTime(s, c, d); }
  }

  lemma OtherStepBacksOff(s: State, t: State)
    requires BacksOff(s) && t.tables == s.tables && t.log == s.log && t.clock == s.clock
    requires forall c :: c in t.calls && InFlight(t.calls[c]) ==>
               c in s.calls && InFlight(s.calls[c]) && t.calls[c].provider == s.calls[c].provider &&
                 t.calls[c].now == s.calls[c].now
    ensures BacksOff(t)
  {
    forall p ensures Spaced(LogOf(t, p), t.clock) && Remembers(t, p) {
      assert Spaced(LogOf(s, p), s.clock) && Remembers(s, p);
    }
    forall c | c in t.calls ensures InTime(t, c) { if InFlight(t.calls[c]) { assert InTime(s, c); } }
  }

  lemma StepBacksOff(s: State, e: Event)
    requires BacksOff(s) && Sound(s) && Enabled(s, e) && OnTime(s, e)
    ensures BacksOff(Apply(s, e))
  {
    if e.EnterE? { EnterBacksOff(s, e.c, e.p, e.now); }
    else if e.SettleE? { SettleBacksOff(s, e.c); }
    else { OtherStepBacksOff(s, Apply(s, e)); }
  }

  lemma {:induction false} RunBacksOff(s: State, events: seq<Event>)
    requires BacksOff(s) && Sound(s) && IsTimelyRun(s, events)
    ensures IsRun(s, events) && BacksOff(After(s, events))
    decreases |events|
  {
    TimelyIsRun(s, events);
    if events != [] {
      StepBacksOff(s, events[0]);
      StepKeeps(s, events[0]);
      RunBacksOff(Apply(s, events[0]), events[1..]);
    }
  }

  // ---- What it means --------------------------------------------------------------------------

  /** In every timely run, a provider whose fetch failed is fetched again only more than its cooldown
      later; the cooldown doubles with each failure up to 600 seconds, and starts from 30 again only
      after a success or a day past the end of the last one. */
  lemma FailingProviderIsLeftAlone(events: seq<Event>, p: Provider, k: nat)
    requires IsTimelyRun(EMPTY, events)
    ensures IsRun(EMPTY, events)
    ensures var log := LogOf(After(EMPTY, events), p);
            0 < k < |log| && !log[k - 1].ok ==>
              && log[k].now > log[k - 1].now + log[k - 1].cooldown
              && (!log[k].ok && log[k].settledAt > log[k - 1].now + log[k - 1].cooldown + 86400 ==>
                  log[k].cooldown == 30)
              && (!log[k].ok && log[k].settledAt <= log[k - 1].now + log[k - 1].cooldown + 86400 ==>
                    log[k].cooldown == Capped(2 * log[k - 1].cooldown))
  {
    RunBacksOff(EMPTY, events);
    var s := After(EMPTY, events);
    assert Spaced(LogOf(s, p), s.clock);
    if 0 < k < |LogOf(s, p)| { assert SpacedAt(LogOf(s, p), s.clock, k); }
  }

  /** The same of the fetch in progress. */
  lemma FetchInProgressWaited(events: seq<Event>, c: CallId)
    requires IsTimelyRun(EMPTY, events)
    ensures IsRun(EMPTY, events)
    ensures var s := After(EMPTY, events);
            c in s.calls && InFlight(s.calls[c]) ==>
              var log := LogOf(s, s.calls[c].provider);
              LastFailed(log) ==> s.calls[c].now > log[|log| - 1].now + log[|log| - 1].cooldown
  {
    RunBacksOff(EMPTY, events);
    var s := After(EMPTY, events);
    if c in s.calls { assert InTime(s, c); }
  }

  predicate AllFail(log: seq<Attempt>, a: nat, n: nat)
    requires a + n <= |log|
  {
    forall k :: a <= k < a + n ==> !log[k].ok
  }

  /** `n` failures in a row and the attempt after them are spread over more than 30n seconds,
      whatever was swept in between. */
  lemma {:induction false} SpacedIsSpread(log: seq<Attempt>, clock: nat, a: nat, n: nat)
    requires Spaced(log, clock) && a + n < |log| && AllFail(log, a, n)
    ensures log[a + n].now >= log[a].now + 31 * n
  {
    if n > 0 {
      SpacedIsSpread(log, clock, a, n - 1);
      assert SpacedAt(log, clock, a + n) && SpacedAt(log, clock, a + n - 1);
    }
  }

  /** The failure before attempt `k` had not lapsed when `k` ended. */
  predicate StillRemembered(log: seq<Attempt>, k: nat)
    requires 0 < k < |log|
  {
    !Lapsed(log[k - 1], log[k].settledAt)
  }

  lemma CooldownAfter(log: seq<Attempt>, clock: nat, k: nat)
    requires Spaced(log, clock) && 0 < k < |log| && !log[k].ok && !log[k - 1].ok
    requires StillRemembered(log, k)
    ensures log[k].cooldown == NextCooldown(log[k - 1].cooldown)
  {
    assert SpacedAt(log, clock, k);
  }

  function Capped(seconds: nat): nat {
    if seconds < MAX_FAILURE_BACKOFF_SECONDS then seconds else MAX_FAILURE_BACKOFF_SECONDS
  }

  /** The n-th failure in a row, the first of them fresh and none forgotten, sets min(30 * 2^n, 600). */
  lemma {:induction false} SpacedDoubles(log: seq<Attempt>, clock: nat, a: nat, n: nat)
    requires Spaced(log, clock) && a + n < |log| && AllFail(log, a, n + 1) && log[a].cooldown == FAILURE_BACKOFF_SECONDS
    requires forall k :: a < k <= a + n ==> StillRemembered(log, k)
    ensures log[a + n].cooldown == Capped(FAILURE_BACKOFF_SECONDS * PowerOfTwo(n))
  {
    if n > 0 {
      assert AllFail(log, a, n);
      SpacedDoubles(log, clock, a, n - 1);
      CooldownAfter(log, clock, a + n);
    }
  }

  /** In every timely run, `n` failures of a provider in a row and the attempt after them are spread
      over more than 30n seconds, whatever was swept in between. */
  lemma FailuresAreSpread(events: seq<Event>, p: Provider, a: nat, n: nat)
    requires IsTimelyRun(EMPTY, events)
    ensures IsRun(EMPTY, events)
    ensures var log := LogOf(After(EMPTY, events), p);
            a + n < |log| && AllFail(log, a, n) ==> log[a + n].now >= log[a].now + 31 * n
  {
    RunBacksOff(EMPTY, events);
    var s := After(EMPTY, events);
    assert Spaced(LogOf(s, p), s.clock);
    if a + n < |LogOf(s, p)| && AllFail(LogOf(s, p), a, n) { SpacedIsSpread(LogOf(s, p), s.clock, a, n); }
  }

  predicate AllRemembered(log: seq<Attempt>, a: nat, n: nat)
    requires a + n < |log|
  {
    forall k :: a < k <= a + n ==> StillRemembered(log, k)
  }

  /** In every timely run, the n-th failure of a provider in a row, the first of them fresh and none
      forgotten, sets a cooldown of min(30 * 2^n, 600) seconds. */
  lemma CooldownsDouble(events: seq<Event>, p: Provider, a: nat, n: nat)
    requires IsTimelyRun(EMPTY, events)
    ensures IsRun(EMPTY, events)
    ensures var log := LogOf(After(EMPTY, events), p);
            a + n < |log| && AllFail(log, a, n + 1) && log[a].cooldown == FAILURE_BACKOFF_SECONDS &&
              AllRemembered(log, a, n) ==>
              log[a + n].cooldown == Capped(FAILURE_BACKOFF_SECONDS * PowerOfTwo(n))
  {
    RunBacksOff(EMPTY, events);
    var s := After(EMPTY, events);
    var log := LogOf(s, p);
    assert Spaced(log, s.clock);
    if a + n < |log| && AllFail(log, a, n + 1) && log[a].cooldown == FAILURE_BACKOFF_SECONDS &&
      AllRemembered(log, a, n) {
      SpacedDoubles(log, s.clock, a, n);
    }
  }

  /** Unsigned wrap-around does not make a wrapped deadline read as ahead: after a failure at `now` the
      cooldown is honoured throughout if and only if neither it nor the day its record is kept wraps. */
  lemma CooldownHoldsIff(t: Tables, p: Provider, round: Round, now: Seconds, cert: Cert)
    requires !cert.valid && p !in t.entries
    ensures var u := Settled(t, p, round, now, cert);
            var cooldown := Cooldown(if p in t.failures then t.failures[p].strikes else 0);
            (forall later: Seconds :: now <= later <= now + cooldown ==> Decide(u, p, later) == Cooling)
              <==> now + cooldown + 86400 < 0x1_0000_0000
  {
    var u := Settled(t, p, round, now, cert);
    var cooldown := Cooldown(if p in t.failures then t.failures[p].strikes else 0);
    assert u.failures[p].retryAfter == (now + cooldown) % WRAP;
    if now + cooldown + FAILURE_FORGET_SECONDS >= WRAP {
      assert Decide(u, p, now) != Cooling;
    }
  }
}
