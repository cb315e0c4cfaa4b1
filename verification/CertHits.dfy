/** A certificate that was fetched is used (src/dns/dnscrypt_cert_cache.h:149-222): until it comes within an
    hour of its end, no call for its provider fetches again. */
module CertHits {
  import opened CertCache
  import opened CertSafety
  import opened CertBackoff

  /** No call comes more than an hour after `end`, and no later fetch for `p` succeeds. */
  predicate Undisturbed(s: State, events: seq<Event>, p: Provider, end: Seconds)
    requires IsRun(s, events)
    decreases |events|
  {
    events == [] ||
    (var e := events[0];
     && (e.EnterE? ==> e.now <= end + 3600)
     && (e.SettleE? ==> !(s.calls[e.c].provider == p && s.calls[e.c].cert.valid))
     && Undisturbed(Apply(s, e), events[1..], p, end))
  }

  predicate Holds(s: State, p: Provider, cert: Cert) {
    p in s.tables.entries && s.tables.entries[p] == cert
  }

  lemma StepHolds(s: State, e: Event, p: Provider, cert: Cert)
    requires Holds(s, p, cert) && Enabled(s, e)
    requires e.EnterE? ==> e.now <= cert.tsEnd + 3600
    requires e.SettleE? ==> !(s.calls[e.c].provider == p && s.calls[e.c].cert.valid)
    ensures Holds(Apply(s, e), p, cert)
  {
  }

  lemma {:induction false} RunHolds(s: State, events: seq<Event>, p: Provider, cert: Cert)
    requires Holds(s, p, cert) && IsRun(s, events) && Undisturbed(s, events, p, cert.tsEnd)
    ensures Holds(After(s, events), p, cert)
    decreases |events|
  {
    if events != [] {
      StepHolds(s, events[0], p, cert);
      RunHolds(Apply(s, events[0]), events[1..], p, cert);
    }
  }

  /** A call answered at once, with nothing fetched for it. */
  predicate AnsweredBy(s: State, t: State, c: CallId, p: Provider, cert: Cert) {
    c in t.calls && t.calls[c] == Returned(p, cert, FromCache) && t.slots == s.slots
    && t.tables.pending == s.tables.pending
  }

  lemma HeldIsHit(s: State, c: CallId, p: Provider, now: Seconds, cert: Cert)
    requires Holds(s, p, cert) && c !in s.calls && cert.valid && cert.tsStart <= now && now + 3600 < cert.tsEnd
    ensures AnsweredBy(s, Enter(s, c, p, now), c, p, cert)
  {
  }

  /** From the moment a valid certificate is settled, and until a later one is or the calls run more than
      an hour past its end, every call for its provider that comes within its time and more than an
      hour before its end returns it without a fetch. */
  lemma FetchedIsUsed(s: State, c: CallId, events: seq<Event>, d: CallId, now: Seconds)
    requires Enabled(s, SettleE(c)) && s.calls[c].cert.valid
    requires var t, call := Apply(s, SettleE(c)), s.calls[c];
             IsRun(t, events) && Undisturbed(t, events, call.provider, call.cert.tsEnd)
    requires var u, cert := After(Apply(s, SettleE(c)), events), s.calls[c].cert;
             d !in u.calls && cert.tsStart <= now && now + 3600 < cert.tsEnd
    ensures var u, call := After(Apply(s, SettleE(c)), events), s.calls[c];
            AnsweredBy(u, Apply(u, EnterE(d, call.provider, now)), d, call.provider, call.cert)
  {
    var call := s.calls[c];
    RunHolds(Apply(s, SettleE(c)), events, call.provider, call.cert);
    HeldIsHit(After(Apply(s, SettleE(c)), events), d, call.provider, now, call.cert);
  }

  // ---- Without a certificate to use -----------------------------------------------------------

  predicate HasUse(s: State, p: Provider, now: Seconds) {
    p in s.tables.entries && s.tables.entries[p].tsStart <= now && now + 3600 < s.tables.entries[p].tsEnd
  }

  ghost predicate IsFetched(s: State, p: Provider) {
    exists d :: d in s.calls && InFlight(s.calls[d]) && s.calls[d].provider == p
  }

  lemma NotCoolingOtherwise(s: State, p: Provider, now: Seconds)
    requires BacksOff(s) && OnTime(s, EnterE(0, p, now))
    ensures var log := LogOf(s, p);
            var cooling := p in s.tables.failures && !Forgotten(s.tables.failures[p], now) &&
                           !Past(now, s.tables.failures[p].retryAfter);
            cooling <==> LastFailed(log) && now <= Retry(log[|log| - 1])
  {
    var log := LogOf(s, p);
    assert Spaced(log, s.clock) && Remembers(s, p);
    if LastFailed(log) {
      var last := log[|log| - 1];
      assert SpacedAt(log, s.clock, |log| - 1);
      if p in s.tables.failures { ForgottenWhenLapsed(s.tables.failures[p], last, now); }
    }
  }

  /** In every timely run, a call that finds no certificate to use is turned away exactly while the cooldown
      of the last failed fetch lasts; otherwise it waits for the fetch in progress, if there is one, and
      starts one if there is none. */
  lemma WhatACallGets(events: seq<Event>, c: CallId, p: Provider, now: Seconds)
    requires IsTimelyRun(EMPTY, events)
    ensures IsRun(EMPTY, events)
    ensures var s := After(EMPTY, events);
            c !in s.calls && OnTime(s, EnterE(c, p, now)) && !HasUse(s, p, now) ==>
              var log, call := LogOf(s, p), Enter(s, c, p, now).calls[c];
              if LastFailed(log) && now <= log[|log| - 1].now + log[|log| - 1].cooldown
              then call == Returned(p, NO_CERT, InCooldown) && !call.cert.valid
              else if IsFetched(s, p) then call.Waiting? && call.provider == p
              else call.Fetching? && call.provider == p && call.round in Enter(s, c, p, now).slots
  {
    RunBacksOff(EMPTY, events);
    RunKeepsEntries(EMPTY, events);
    SingleFlight(events, p);
    var s := After(EMPTY, events);
    if c !in s.calls && OnTime(s, EnterE(c, p, now)) && !HasUse(s, p, now) {
      NotCoolingOtherwise(s, p, now);
      DecidedWithout(s, p, now);
    }
  }

  lemma DecidedWithout(s: State, p: Provider, now: Seconds)
    requires !HasUse(s, p, now)
    ensures var cooling := p in s.tables.failures && !Forgotten(s.tables.failures[p], now) &&
                           !Past(now, s.tables.failures[p].retryAfter);
            Decide(s.tables, p, now) ==
              if cooling then Cooling
              else if p in s.tables.pending then Join(s.tables.pending[p]) else Own(s.tables.lastRound + 1)
  {
  }

  /** A waiter that is cancelled returns nothing to use. */
  lemma CancelledGetsNothing(s: State, c: CallId)
    requires Enabled(s, GiveUpE(c))
    ensures c in Apply(s, GiveUpE(c)).calls
    ensures var call := Apply(s, GiveUpE(c)).calls[c]; call.Returned? && call.origin == Cancelled && !call.cert.valid
  {
  }

  // ---- In seconds -----------------------------------------------------------------------------

  /** A call drops the certificates that ended more than an hour before it and keeps the others; and away
      from the wrap it forgets the failures whose cooldown ended more than a day before it. */
  lemma DroppedAfter(t: Tables, p: Provider, now: Seconds, q: Provider)
    ensures q in Entered(t, p, now).entries <==> q in t.entries && now <= t.entries[q].tsEnd + 3600
    ensures q in t.failures && t.failures[q].retryAfter + 86400 < 0x1_0000_0000 ==>
              (q in Entered(t, p, now).failures <==> now <= t.failures[q].retryAfter + 86400)
  {
  }

  /** The cooldowns: half a minute, doubling, up to ten minutes. */
  lemma CooldownsAre(strikes: nat)
    ensures Cooldown(strikes) ==
            if strikes == 0 then 30 else if strikes == 1 then 60 else if strikes == 2 then 120
            else if strikes == 3 then 240 else if strikes == 4 then 480 else 600
  {
    PowersOfTwo();
  }
}
