/** One fetch at a time per provider, and every waiter served by its own round
    (src/dns/dnscrypt_cert_cache.h:143-246), in every run. */
module CertSafety {
  import opened Bytes
  import opened CertCache

  predicate InFlight(call: Call) {
    call.Fetching? || call.Fetched?
  }

  predicate Owns(call: Call) {
    call.Fetching? || call.Fetched? || call.Publishing?
  }

  /** What one call knows: its round's slot is for its provider, and if it owns the round the slot
      is still open and, until it settles, the one the cache lists. */
  predicate CallSound(s: State, c: CallId)
    requires c in s.calls
  {
    var call := s.calls[c];
    && (Owns(call) ==> call.round in s.slots && s.slots[call.round] == Slot(call.provider, c, None))
    && (InFlight(call) ==> call.provider in s.tables.pending && s.tables.pending[call.provider] == call.round)
    && (call.Fetching? ==> call.round !in s.brought)
    && (call.Fetched? || call.Publishing? ==> call.round in s.brought && s.brought[call.round] == call.cert)
    && (call.Waiting? ==> call.round in s.slots && s.slots[call.round].provider == call.provider)
    && (call.Returned? ==> OriginSound(s, call))
  }

  /** Where a returned certificate came from. */
  predicate OriginSound(s: State, call: Call)
    requires call.Returned?
  {
    match call.origin
    case FromCache => call.cert.valid
    case InCooldown => call.cert == NO_CERT
    case Cancelled => call.cert == NO_CERT
    case Fetcher(round) =>
      round in s.slots && s.slots[round].provider == call.provider && round in s.brought &&
      call.cert == s.brought[round]
    case Waiter(round) =>
      round in s.slots && s.slots[round].provider == call.provider && round in s.brought &&
      call.cert == s.brought[round]
  }

  predicate SlotSound(s: State, r: Round)
    requires r in s.slots
  {
    var slot := s.slots[r];
    && 1 <= r <= s.tables.lastRound
    && (slot.result.None? ==> slot.owner in s.calls && Owns(s.calls[slot.owner]) && s.calls[slot.owner].round == r)
    && (slot.result.Some? ==> r in s.brought && slot.result.value == s.brought[r])
  }

  predicate PendingSound(s: State, p: Provider)
    requires p in s.tables.pending
  {
    var r := s.tables.pending[p];
    && r in s.slots && s.slots[r].provider == p && s.slots[r].result.None?
    && s.slots[r].owner in s.calls && InFlight(s.calls[s.slots[r].owner]) && s.calls[s.slots[r].owner].round == r
  }

  ghost predicate Sound(s: State) {
    && (forall c :: c in s.calls ==> CallSound(s, c))
    && (forall r :: r in s.slots ==> SlotSound(s, r))
    && (forall p :: p in s.tables.pending ==> PendingSound(s, p))
    && (forall r :: r in s.brought ==> r in s.slots)
  }

  /** A call that starts no fetch. */
  lemma CallerJoins(s: State, t: State, c: CallId)
    requires Sound(s) && c !in s.calls && c in t.calls && t.calls == s.calls[c := t.calls[c]]
    requires t.slots == s.slots && t.brought == s.brought && t.tables.pending == s.tables.pending
    requires t.tables.lastRound == s.tables.lastRound
    requires !Owns(t.calls[c]) && CallSound(t, c)
    ensures Sound(t)
  {
    forall d | d in t.calls ensures CallSound(t, d) { if d != c { assert CallSound(s, d); } }
    forall r | r in t.slots ensures SlotSound(t, r) { assert SlotSound(s, r); }
    forall q | q in t.tables.pending ensures PendingSound(t, q) { assert PendingSound(s, q); }
  }

  /** A call that installs the slot of a new round. */
  lemma OwnerStarts(s: State, t: State, c: CallId, p: Provider, now: Seconds)
    requires Sound(s) && c !in s.calls && p !in s.tables.pending && t.brought == s.brought
    requires var r := s.tables.lastRound + 1;
             && t.tables.lastRound == r && t.tables.pending == s.tables.pending[p := r]
             && t.calls == s.calls[c := Fetching(p, r, now)] && t.slots == s.slots[r := Slot(p, c, None)]
    ensures Sound(t)
  {
    var r := s.tables.lastRound + 1;
    forall q | q in s.slots ensures q < r { assert SlotSound(s, q); }
    forall d | d in t.calls ensures CallSound(t, d) { if d != c { assert CallSound(s, d); } }
    forall q | q in t.slots ensures SlotSound(t, q) { if q != r { assert SlotSound(s, q); } }
    forall q | q in t.tables.pending ensures PendingSound(t, q) { if q != p { assert PendingSound(s, q); } }
  }

  lemma EnterStarts(s: State, c: CallId, p: Provider, now: Seconds)
    requires Sound(s) && c !in s.calls && Decide(s.tables, p, now).Own?
    ensures Sound(Enter(s, c, p, now))
  {
    OwnerStarts(s, Enter(s, c, p, now), c, p, now);
  }

  lemma EnterJoins(s: State, c: CallId, p: Provider, now: Seconds)
    requires Sound(s) && c !in s.calls && !Decide(s.tables, p, now).Own?
    ensures !Owns(Enter(s, c, p, now).calls[c]) && CallSound(Enter(s, c, p, now), c)
  {
    if Decide(s.tables, p, now).Join? { assert PendingSound(s, p); }
  }

  lemma EnterKeeps(s: State, c: CallId, p: Provider, now: Seconds)
    requires Sound(s) && c !in s.calls
    ensures Sound(Enter(s, c, p, now))
  {
    if Decide(s.tables, p, now).Own? {
      EnterStarts(s, c, p, now);
    } else {
      EnterJoins(s, c, p, now);
      CallerJoins(s, Enter(s, c, p, now), c);
    }
  }

  lemma FetchReturnsKeeps(s: State, c: CallId, cert: Cert)
    requires Sound(s) && c in s.calls && s.calls[c].Fetching?
    ensures Sound(FetchReturns(s, c, cert))
  {
    var t := FetchReturns(s, c, cert);
    assert CallSound(s, c);
    forall d | d in t.calls ensures CallSound(t, d) { assert CallSound(s, d); }
    forall r | r in t.slots ensures SlotSound(t, r) { assert SlotSound(s, r); }
    forall q | q in t.tables.pending ensures PendingSound(t, q) { assert PendingSound(s, q); }
  }

  lemma SettleKeeps(s: State, c: CallId)
    requires Sound(s) && c in s.calls && s.calls[c].Fetched?
    ensures Sound(Settle(s, c))
  {
    var t := Settle(s, c);
    assert CallSound(s, c);
    forall d | d in t.calls ensures CallSound(t, d) { assert CallSound(s, d); }
    forall r | r in t.slots ensures SlotSound(t, r) { assert SlotSound(s, r); }
    forall q | q in t.tables.pending ensures PendingSound(t, q) { assert PendingSound(s, q); }
  }

  lemma PublishKeeps(s: State, c: CallId)
    requires Sound(s) && c in s.calls && s.calls[c].Publishing? && s.calls[c].round in s.slots
    ensures Sound(Publish(s, c))
  {
    var t := Publish(s, c);
    assert CallSound(s, c);
    forall d | d in t.calls ensures CallSound(t, d) { assert CallSound(s, d); }
    forall r | r in t.slots ensures SlotSound(t, r) { assert SlotSound(s, r); }
    forall q | q in t.tables.pending ensures PendingSound(t, q) { assert PendingSound(s, q); }
  }

  lemma WaiterLeavesKeeps(s: State, t: State, c: CallId)
    requires Sound(s) && c in s.calls && s.calls[c].Waiting?
    requires c in t.calls && t.calls == s.calls[c := t.calls[c]] && t == s.(calls := t.calls)
    requires t.calls[c].Returned? && OriginSound(t, t.calls[c])
    ensures Sound(t)
  {
    forall d | d in t.calls ensures CallSound(t, d) { if d != c { assert CallSound(s, d); } }
    forall r | r in t.slots ensures SlotSound(t, r) { assert SlotSound(s, r); }
    forall q | q in t.tables.pending ensures PendingSound(t, q) { assert PendingSound(s, q); }
  }

  lemma StepKeeps(s: State, e: Event)
    requires Sound(s) && Enabled(s, e)
    ensures Sound(Apply(s, e))
  {
    if e.EnterE? {
      EnterKeeps(s, e.c, e.p, e.now);
    } else if e.FetchReturnsE? {
      FetchReturnsKeeps(s, e.c, e.cert);
    } else if e.SettleE? {
      SettleKeeps(s, e.c);
    } else if e.PublishE? {
      PublishKeeps(s, e.c);
    } else {
      assert CallSound(s, e.c);
      if e.WakeE? { assert SlotSound(s, s.calls[e.c].round); }
      WaiterLeavesKeeps(s, Apply(s, e), e.c);
    }
  }

  lemma {:induction false} RunKeeps(s: State, events: seq<Event>)
    requires Sound(s) && IsRun(s, events)
    ensures Sound(After(s, events))
    decreases |events|
  {
    if events != [] {
      StepKeeps(s, events[0]);
      RunKeeps(Apply(s, events[0]), events[1..]);
    }
  }

  // ---- What it means --------------------------------------------------------------------------

  /** At most one fetch per provider runs; the cache lists a provider as pending exactly while one
      does; and the round check when it settles always finds its own round. */
  lemma SingleFlight(events: seq<Event>, p: Provider)
    requires IsRun(EMPTY, events)
    ensures var s := After(EMPTY, events);
            && (forall c, d ::
                c in s.calls && d in s.calls && InFlight(s.calls[c]) && InFlight(s.calls[d]) &&
                s.calls[c].provider == p == s.calls[d].provider ==>
                  c == d)
            && (p in s.tables.pending <==> exists c :: c in s.calls && InFlight(s.calls[c]) && s.calls[c].provider == p)
            && (forall c :: c in s.calls && s.calls[c].Fetched? && s.calls[c].provider == p ==>
                  p in s.tables.pending && s.tables.pending[p] == s.calls[c].round && p !in Settle(s, c).tables.pending)
  {
    var s := After(EMPTY, events);
    RunKeeps(EMPTY, events);
    forall c | c in s.calls && InFlight(s.calls[c]) && s.calls[c].provider == p
      ensures p in s.tables.pending && s.slots[s.tables.pending[p]].owner == c
    {
      assert CallSound(s, c);
    }
    if p in s.tables.pending {
      assert PendingSound(s, p);
      assert CallSound(s, s.slots[s.tables.pending[p]].owner);
    }
  }

  /** A waiter that is not cancelled returns what the owner of its own round fetched for its
      provider, and until then that owner is still at work on the round or has left the result. */
  lemma WaiterGetsItsOwnRound(events: seq<Event>, c: CallId)
    requires IsRun(EMPTY, events) && c in After(EMPTY, events).calls
    ensures var s := After(EMPTY, events);
            var call := s.calls[c];
            && (call.Returned? && (call.origin.Waiter? || call.origin.Fetcher?) ==>
                  && call.origin.round in s.brought && call.cert == s.brought[call.origin.round]
                  && call.origin.round in s.slots && s.slots[call.origin.round].provider == call.provider)
            && (call.Waiting? ==>
                  && call.round in s.slots && s.slots[call.round].provider == call.provider
                  && var slot := s.slots[call.round];
                     if slot.result.Some? then call.round in s.brought && slot.result.value == s.brought[call.round]
                     else slot.owner in s.calls && Owns(s.calls[slot.owner]) && s.calls[slot.owner].round == call.round)
  {
    var s := After(EMPTY, events);
    RunKeeps(EMPTY, events);
    assert CallSound(s, c);
    if s.calls[c].Waiting? { assert SlotSound(s, s.calls[c].round); }
  }

  // ---- The cached entries ---------------------------------------------------------------------

  /** Round `r` was a fetch for `p` that brought `cert`. */
  predicate Brought(s: State, r: Round, p: Provider, cert: Cert) {
    r in s.slots && s.slots[r].provider == p && r in s.brought && s.brought[r] == cert
  }

  ghost predicate EntriesFetched(s: State) {
    forall p :: p in s.tables.entries ==> s.tables.entries[p].valid && exists r :: Brought(s, r, p, s.tables.entries[p])
  }

  /** An entry that stays has the same fetch behind it. */
  lemma EntryStays(s: State, e: Event, q: Provider)
    requires Sound(s) && EntriesFetched(s) && Enabled(s, e) && q in s.tables.entries
    ensures s.tables.entries[q].valid && exists r :: Brought(Apply(s, e), r, q, s.tables.entries[q])
  {
    var r :| Brought(s, r, q, s.tables.entries[q]);
    NothingUnbrought(s, e, r);
    assert Brought(Apply(s, e), r, q, s.tables.entries[q]);
  }

  lemma SettleEntry(s: State, c: CallId)
    requires Sound(s) && c in s.calls && s.calls[c].Fetched?
    ensures Brought(Settle(s, c), s.calls[c].round, s.calls[c].provider, s.calls[c].cert)
  {
    assert CallSound(s, c);
  }

  lemma SettledEntryComesFrom(s: State, c: CallId, q: Provider)
    requires c in s.calls && s.calls[c].Fetched? && q in Settle(s, c).tables.entries
    ensures var cert := Settle(s, c).tables.entries[q];
            || (q in s.tables.entries && cert == s.tables.entries[q])
            || (q == s.calls[c].provider && cert == s.calls[c].cert && cert.valid)
  {
  }

  lemma EnteredEntryComesFrom(s: State, c: CallId, p: Provider, now: Seconds, q: Provider)
    requires c !in s.calls && q in Enter(s, c, p, now).tables.entries
    ensures q in s.tables.entries && Enter(s, c, p, now).tables.entries[q] == s.tables.entries[q]
  {
  }

  lemma EntryComesFrom(s: State, e: Event, q: Provider)
    requires Enabled(s, e) && q in Apply(s, e).tables.entries
    ensures var cert := Apply(s, e).tables.entries[q];
            || (q in s.tables.entries && cert == s.tables.entries[q])
            || (e.SettleE? && q == s.calls[e.c].provider && cert == s.calls[e.c].cert && cert.valid)
  {
    if e.SettleE? { SettledEntryComesFrom(s, e.c, q); }
    else if e.EnterE? { EnteredEntryComesFrom(s, e.c, e.p, e.now, q); }
  }

  lemma StepKeepsEntries(s: State, e: Event)
    requires Sound(s) && EntriesFetched(s) && Enabled(s, e)
    ensures EntriesFetched(Apply(s, e))
  {
    var t := Apply(s, e);
    if e.SettleE? { SettleEntry(s, e.c); }
    forall q | q in t.tables.entries
      ensures t.tables.entries[q].valid && exists r :: Brought(t, r, q, t.tables.entries[q]) {
      EntryComesFrom(s, e, q);
      if q in s.tables.entries && t.tables.entries[q] == s.tables.entries[q] { EntryStays(s, e, q); }
    }
  }

  lemma NothingUnbrought(s: State, e: Event, r: Round)
    requires Sound(s) && Enabled(s, e) && r in s.slots && r in s.brought
    ensures var t := Apply(s, e);
            r in t.slots && t.slots[r].provider == s.slots[r].provider && r in t.brought && t.brought[r] == s.brought[r]
  {
    assert SlotSound(s, r);
    if !e.EnterE? { assert CallSound(s, e.c); }
  }

  lemma {:induction false} RunKeepsEntries(s: State, events: seq<Event>)
    requires Sound(s) && EntriesFetched(s) && IsRun(s, events)
    ensures EntriesFetched(After(s, events))
    decreases |events|
  {
    if events != [] {
      StepKeepsEntries(s, events[0]);
      StepKeeps(s, events[0]);
      RunKeepsEntries(Apply(s, events[0]), events[1..]);
    }
  }

  /** A call answered from the cache gets a valid certificate with more than an hour left to run,
      and some fetch for that very provider brought it. */
  lemma CachedIsFreshAndOurs(events: seq<Event>, c: CallId, p: Provider, now: Seconds)
    requires IsRun(EMPTY, events) && c !in After(EMPTY, events).calls
    ensures var s := After(EMPTY, events);
            var call := Enter(s, c, p, now).calls[c];
            call.Returned? && call.origin.FromCache? ==>
              && call.cert.valid && call.cert.tsStart <= now && now + 3600 < call.cert.tsEnd
              && exists r :: Brought(s, r, p, call.cert)
  {
    RunKeepsEntries(EMPTY, events);
  }
}
