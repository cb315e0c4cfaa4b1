/** The certificate cache (src/dns/dnscrypt_cert_cache.h): its tables with the two regions that run
    under the cache's lock, and the whole of `Get` as steps any number of callers interleave. */
module CertCache {
  import opened Bytes

  const WRAP := 0x1_0000_0000
  const REFRESH_MARGIN := 3600
  const STALE_GRACE_SECONDS := 3600
  const FAILURE_BACKOFF_SECONDS := 30
  const MAX_FAILURE_BACKOFF_SECONDS := 600
  const MAX_FAILURE_BACKOFF_SHIFT := 5
  const FAILURE_FORGET_SECONDS := 86400

  /** Seconds in an unsigned 32-bit field. */
  type Seconds = n: nat | n < WRAP

  type Provider = string
  type Round = nat
  type CallId = nat

  datatype Cert = Cert(serial: nat, tsStart: Seconds, tsEnd: Seconds, valid: bool)

  const NO_CERT := Cert(0, 0, 0, false)

  datatype Failure = Failure(strikes: nat, retryAfter: Seconds)

  datatype Tables = Tables(entries: map<Provider, Cert>, pending: map<Provider, Round>,
                           failures: map<Provider, Failure>, lastRound: Round)

  predicate Past(now: Seconds, deadline: Seconds) {
    now > deadline
  }

  predicate Usable(cert: Cert, now: Seconds) {
    cert.valid && cert.tsStart <= now <= cert.tsEnd && cert.tsEnd - now > REFRESH_MARGIN
  }

  predicate LongDead(cert: Cert, now: Seconds) {
    now > cert.tsEnd && now - cert.tsEnd > STALE_GRACE_SECONDS
  }

  predicate Forgotten(failure: Failure, now: Seconds) {
    Past(now, (failure.retryAfter + FAILURE_FORGET_SECONDS) % WRAP)
  }

  function Swept(t: Tables, now: Seconds): Tables {
    t.(entries := map p | p in t.entries && !LongDead(t.entries[p], now) :: t.entries[p],
       failures := map p | p in t.failures && !Forgotten(t.failures[p], now) :: t.failures[p])
  }

  // ---- The two locked regions -----------------------------------------------------------------

  /** What a caller leaves the first region with. */
  datatype Decision = Hit(cert: Cert) | Cooling | Join(round: Round) | Own(round: Round)

  function Decide(t: Tables, p: Provider, now: Seconds): Decision {
    var u := Swept(t, now);
    if p in u.entries && Usable(u.entries[p], now) then Hit(u.entries[p])
    else if p in u.failures && !Past(now, u.failures[p].retryAfter) then Cooling
    else if p in u.pending then Join(u.pending[p])
    else Own(u.lastRound + 1)
  }

  function Entered(t: Tables, p: Provider, now: Seconds): Tables {
    var u := Swept(t, now);
    if Decide(t, p, now).Own? then u.(lastRound := u.lastRound + 1, pending := u.pending[p := u.lastRound + 1]) else u
  }

  function Cooldown(strikes: nat): (seconds: nat)
    ensures FAILURE_BACKOFF_SECONDS <= seconds <= MAX_FAILURE_BACKOFF_SECONDS
  {
    var shift := if strikes < MAX_FAILURE_BACKOFF_SHIFT then strikes else MAX_FAILURE_BACKOFF_SHIFT;
    var doubled := FAILURE_BACKOFF_SECONDS * PowerOfTwo(shift);
    if doubled < MAX_FAILURE_BACKOFF_SECONDS then doubled else MAX_FAILURE_BACKOFF_SECONDS
  }

  function PowerOfTwo(n: nat): (r: nat)
    ensures r >= 1
  {
    if n == 0 then 1 else 2 * PowerOfTwo(n - 1)
  }

  function Struck(failure: Failure, now: Seconds): Failure {
    Failure(if failure.strikes < MAX_FAILURE_BACKOFF_SHIFT then failure.strikes + 1 else failure.strikes,
            (now + Cooldown(failure.strikes)) % WRAP)
  }

  /** The second region: the fetch of round `round`, started at `now`, brought `cert`. */
  function Settled(t: Tables, p: Provider, round: Round, now: Seconds, cert: Cert): Tables {
    var u := if p in t.pending && t.pending[p] == round then t.(pending := t.pending - {p}) else t;
    if cert.valid then u.(entries := u.entries[p := cert], failures := u.failures - {p})
    else u.(failures := u.failures[p := Struck(if p in u.failures then u.failures[p] else Failure(0, 0), now)])
  }

  class Cache {
    var entries: map<Provider, Cert>
    var pending: map<Provider, Round>
    var failures: map<Provider, Failure>
    var fetchRound: Round

    ghost function View(): Tables
      reads this
    {
      Tables(entries, pending, failures, fetchRound)
    }

    constructor ()
      ensures View() == Tables(map[], map[], map[], 0)
    {
      entries, pending, failures, fetchRound := map[], map[], map[], 0;
    }

    method SweepEntries(now: Seconds)
      modifies this`entries
      ensures entries == map p | p in old(entries) && !LongDead(old(entries)[p], now) :: old(entries)[p]
    {
      var left := entries.Keys;
      while left != {}
        invariant left <= entries.Keys <= old(entries).Keys
        invariant forall p :: p in entries ==> entries[p] == old(entries)[p]
        invariant forall p :: p in old(entries) ==> (p in entries <==> p in left || !LongDead(old(entries)[p], now))
        decreases |left|
      {
        var p :| p in left;
        if now > entries[p].tsEnd && now - entries[p].tsEnd > STALE_GRACE_SECONDS { entries := entries - {p}; }
        left := left - {p};
      }
    }

    method SweepFailures(now: Seconds)
      modifies this`failures
      ensures failures == map p | p in old(failures) && !Forgotten(old(failures)[p], now) :: old(failures)[p]
    {
      var left := failures.Keys;
      while left != {}
        invariant left <= failures.Keys <= old(failures).Keys
        invariant forall p :: p in failures ==> failures[p] == old(failures)[p]
        invariant forall p :: p in old(failures) ==> (p in failures <==> p in left || !Forgotten(old(failures)[p], now))
        decreases |left|
      {
        var p :| p in left;
        if Past(now, (failures[p].retryAfter + FAILURE_FORGET_SECONDS) % WRAP) { failures := failures - {p}; }
        left := left - {p};
      }
    }

    method Sweep(now: Seconds)
      modifies this`entries, this`failures
      ensures View() == Swept(old(View()), now)
    {
      SweepEntries(now);
      SweepFailures(now);
    }

    method Begin(p: Provider, now: Seconds) returns (decision: Decision)
      modifies this
      ensures decision == Decide(old(View()), p, now)
      ensures View() == Entered(old(View()), p, now)
    {
      Sweep(now);
      if p in entries && Usable(entries[p], now) { return Hit(entries[p]); }
      if p in failures && !Past(now, failures[p].retryAfter) { return Cooling; }
      if p in pending { return Join(pending[p]); }
      fetchRound := fetchRound + 1;
      pending := pending[p := fetchRound];
      return Own(fetchRound);
    }

    method Finish(p: Provider, round: Round, now: Seconds, cert: Cert)
      modifies this
      ensures View() == Settled(old(View()), p, round, now, cert)
    {
      if p in pending && pending[p] == round { pending := pending - {p}; }
      if cert.valid {
        entries := entries[p := cert];
        failures := failures - {p};
      } else {
        var failure := if p in failures then failures[p] else Failure(0, 0);
        var cooldown := Cooldown(failure.strikes);
        if failure.strikes < MAX_FAILURE_BACKOFF_SHIFT { failure := failure.(strikes := failure.strikes + 1); }
        failures := failures[p := failure.(retryAfter := (now + cooldown) % WRAP)];
      }
    }
  }

  // ---- Callers --------------------------------------------------------------------------------

  datatype Origin = FromCache | InCooldown | Fetcher(round: Round) | Waiter(round: Round) | Cancelled

  /** How far one call of `Get` has come. */
  datatype Call =
    | Fetching(provider: Provider, round: Round, now: Seconds)
    | Fetched(provider: Provider, round: Round, now: Seconds, cert: Cert)
    | Publishing(provider: Provider, round: Round, cert: Cert)
    | Waiting(provider: Provider, round: Round)
    | Returned(provider: Provider, cert: Cert, origin: Origin)

  /** One fetch in progress, or done; `owner` is the call that installed it. */
  datatype Slot = Slot(provider: Provider, owner: CallId, result: Option<Cert>)

  /** A fetch that was settled: when it started, how it ended, the cooldown it set if it failed, and
      the latest time the cache had been asked for by then. */
  datatype Attempt = Attempt(now: Seconds, ok: bool, cooldown: nat, settledAt: Seconds)

  /** `brought` is what every fetch returned and `log` the settled fetches of each provider. */
  datatype State = State(
    tables: Tables, slots: map<Round, Slot>, calls: map<CallId, Call>,
    clock: Seconds, brought: map<Round, Cert>, log: map<Provider, seq<Attempt>>)

  const EMPTY := State(Tables(map[], map[], map[], 0), map[], map[], 0, map[], map[])

  function LogOf(s: State, p: Provider): seq<Attempt> {
    if p in s.log then s.log[p] else []
  }

  function Enter(s: State, c: CallId, p: Provider, now: Seconds): State
    requires c !in s.calls
  {
    var t := s.(tables := Entered(s.tables, p, now), clock := now);
    match Decide(s.tables, p, now)
    case Hit(cert) => t.(calls := s.calls[c := Returned(p, cert, FromCache)])
    case Cooling => t.(calls := s.calls[c := Returned(p, NO_CERT, InCooldown)])
    case Join(round) => t.(calls := s.calls[c := Waiting(p, round)])
    case Own(round) => t.(calls := s.calls[c := Fetching(p, round, now)], slots := s.slots[round := Slot(p, c, None)])
  }

  function FetchReturns(s: State, c: CallId, cert: Cert): State
    requires c in s.calls && s.calls[c].Fetching?
  {
    var call := s.calls[c];
    s.(calls := s.calls[c := Fetched(call.provider, call.round, call.now, cert)],
       brought := s.brought[call.round := cert])
  }

  function Settle(s: State, c: CallId): State
    requires c in s.calls && s.calls[c].Fetched?
  {
    var call := s.calls[c];
    var strikes := if call.provider in s.tables.failures then s.tables.failures[call.provider].strikes else 0;
    var attempt := Attempt(call.now, call.cert.valid, Cooldown(strikes), s.clock);
    s.(tables := Settled(s.tables, call.provider, call.round, call.now, call.cert),
       calls := s.calls[c := Publishing(call.provider, call.round, call.cert)],
       log := s.log[call.provider := LogOf(s, call.provider) + [attempt]])
  }

  function Publish(s: State, c: CallId): State
    requires c in s.calls && s.calls[c].Publishing? && s.calls[c].round in s.slots
  {
    var call := s.calls[c];
    s.(slots := s.slots[call.round := s.slots[call.round].(result := Some(call.cert))],
       calls := s.calls[c := Returned(call.provider, call.cert, Fetcher(call.round))])
  }

  function Wake(s: State, c: CallId): State
    requires c in s.calls && s.calls[c].Waiting? && s.calls[c].round in s.slots
    requires s.slots[s.calls[c].round].result.Some?
  {
    var call := s.calls[c];
    s.(calls := s.calls[c := Returned(call.provider, s.slots[call.round].result.value, Waiter(call.round))])
  }

  /** A cancelled waiter that has not been told the result yet. */
  function GiveUp(s: State, c: CallId): State
    requires c in s.calls && s.calls[c].Waiting?
  {
    s.(calls := s.calls[c := Returned(s.calls[c].provider, NO_CERT, Cancelled)])
  }

  datatype Event =
    | EnterE(c: CallId, p: Provider, now: Seconds)
    | FetchReturnsE(c: CallId, cert: Cert)
    | SettleE(c: CallId)
    | PublishE(c: CallId)
    | WakeE(c: CallId)
    | GiveUpE(c: CallId)

  predicate Enabled(s: State, e: Event) {
    match e
    case EnterE(c, p, now) => c !in s.calls
    case FetchReturnsE(c, cert) => c in s.calls && s.calls[c].Fetching?
    case SettleE(c) => c in s.calls && s.calls[c].Fetched?
    case PublishE(c) => c in s.calls && s.calls[c].Publishing? && s.calls[c].round in s.slots
    case WakeE(c) =>
      c in s.calls && s.calls[c].Waiting? && s.calls[c].round in s.slots &&
      s.slots[s.calls[c].round].result.Some?
    case GiveUpE(c) =>
      c in s.calls && s.calls[c].Waiting? && s.calls[c].round in s.slots &&
      s.slots[s.calls[c].round].result.None?
  }

  function Apply(s: State, e: Event): State
    requires Enabled(s, e)
  {
    match e
    case EnterE(c, p, now) => Enter(s, c, p, now)
    case FetchReturnsE(c, cert) => FetchReturns(s, c, cert)
    case SettleE(c) => Settle(s, c)
    case PublishE(c) => Publish(s, c)
    case WakeE(c) => Wake(s, c)
    case GiveUpE(c) => GiveUp(s, c)
  }

  predicate IsRun(s: State, events: seq<Event>)
    decreases |events|
  {
    events == [] || (Enabled(s, events[0]) && IsRun(Apply(s, events[0]), events[1..]))
  }

  function After(s: State, events: seq<Event>): State
    requires IsRun(s, events)
    decreases |events|
  {
    if events == [] then s else After(Apply(s, events[0]), events[1..])
  }
}
