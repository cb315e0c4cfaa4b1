/** The forwarder's TCP sessions (src/dns/dns_proxy.cpp:652-683, 976-1072, 1116-1158) over every
    interleaving: how many there are, who owns the connection, and the order of the answers. */
module SessionSafety {
  import opened Bytes
  import opened Racing
  import opened RacingSafety

  /** What one session keeps: it is busy exactly with a race, a busy session owes nothing, and the
      answers handed over are those of the queries taken, in order, but for the one in flight. */
  predicate OwnBooks(t: Session) {
    && (t.busy <==> t.race.Some?)
    && (t.busy ==> !t.owed)
    && t.taken == t.answered + (if t.race.Some? then [t.race.value] else [])
  }

  ghost predicate IdsUnique(s: State) {
    && (forall j :: 0 <= j < |s.sessions| ==> s.sessions[j].id < s.nextSession)
    && (forall j, k :: 0 <= j < k < |s.sessions| ==> s.sessions[j].id != s.sessions[k].id)
    && (forall i :: 0 <= i < |s.pending| && s.pending[i].client.Tcp? ==> s.pending[i].client.session < s.nextSession)
  }

  ghost predicate Asks(pending: seq<Pending>, t: Session) {
    exists i :: 0 <= i < |pending| && pending[i].client == Tcp(t.id) && t.race == Some(pending[i].race)
  }

  /** A live session is busy exactly when a pending query names it, and with that query's race. */
  ghost predicate Seats(s: State) {
    && |s.sessions| <= MAX_TCP_SESSIONS
    && IdsUnique(s)
    && (forall j :: 0 <= j < |s.sessions| ==>
        OwnBooks(s.sessions[j]) && (s.sessions[j].busy ==> Asks(s.pending, s.sessions[j])))
    && (forall i, j :: 0 <= i < |s.pending| && 0 <= j < |s.sessions| && s.pending[i].client == Tcp(s.sessions[j].id) ==>
          s.sessions[j].race == Some(s.pending[i].race))
  }

  // ---- One session changes --------------------------------------------------------------------

  lemma SessionUpdated(s: State, t: State, j: nat)
    requires Seats(s) && j < |s.sessions| && j < |t.sessions| && t.pending == s.pending
    requires t.nextSession == s.nextSession
    requires t.sessions == s.sessions[j := t.sessions[j]] && OwnBooks(t.sessions[j])
    requires t.sessions[j].id == s.sessions[j].id && t.sessions[j].race == s.sessions[j].race
    ensures Seats(t)
  {
    forall k | 0 <= k < |t.sessions| && t.sessions[k].busy ensures Asks(t.pending, t.sessions[k]) {
      assert Asks(s.pending, s.sessions[k]);
    }
  }

  lemma SessionRemoved(s: State, j: nat)
    requires Seats(s) && j < |s.sessions|
    ensures Seats(Drop(s, j))
  {
    var t := Drop(s, j);
    forall k | 0 <= k < |t.sessions|
      ensures OwnBooks(t.sessions[k]) && (t.sessions[k].busy ==> Asks(t.pending, t.sessions[k]))
      ensures t.sessions[k].id < t.nextSession
    {
      assert t.sessions[k] == s.sessions[if k < j then k else k + 1];
    }
  }

  lemma AcceptKeepsSeats(s: State, prepared: bool)
    requires Seats(s)
    ensures Seats(Accept(s, prepared))
  {
    if |s.sessions| < MAX_TCP_SESSIONS {
      AdmittedKeepsSeats(s);
    } else {
      var victim := LongestIdle(s.sessions, 0, |s.sessions|);
      if victim < |s.sessions| {
        SessionRemoved(s, victim);
        AdmittedKeepsSeats(Drop(s, victim));
      }
    }
  }

  lemma AdmittedKeepsSeats(s: State)
    requires Seats(s) && |s.sessions| < MAX_TCP_SESSIONS
    ensures Seats(Admitted(s))
  {
    forall j | 0 <= j < |s.sessions| ensures s.sessions[j].busy ==> Asks(Admitted(s).pending, s.sessions[j]) {}
  }

  lemma TakeKeepsSeats(s: State, j: nat, r: RaceId, t: State, u: Session, deadline: nat)
    requires Seats(s) && j < |s.sessions| && !s.sessions[j].busy && !s.sessions[j].owed
    requires u.busy && u.race == Some(r) && !u.owed && u.id == s.sessions[j].id
    requires u.taken == s.sessions[j].taken + [r] && u.answered == s.sessions[j].answered
    requires t.sessions == s.sessions[j := u] && t.nextSession == s.nextSession
    requires t.pending == s.pending + [Pending(r, Tcp(u.id), deadline)]
    ensures Seats(t)
  {
    assert t.pending[|s.pending|].client == Tcp(u.id);
    forall k | 0 <= k < |t.sessions| && t.sessions[k].busy ensures Asks(t.pending, t.sessions[k]) {
      if k != j {
        assert Asks(s.pending, s.sessions[k]);
        var i :| 0 <= i < |s.pending| && s.pending[i].client == Tcp(s.sessions[k].id) &&
          s.sessions[k].race == Some(s.pending[i].race);
        assert t.pending[i] == s.pending[i];
      }
    }
  }

  lemma ServiceKeepsSeats(s: State, j: nat, r: RaceId)
    requires Seats(s) && j < |s.sessions| && r !in s.races && !s.sessions[j].owed
    ensures Seats(Service(s, j, r))
  {
    var t, u := s.sessions[j], Service(s, j, r);
    if !t.busy {
      if FirstQuery(t.inbox, 0) == |t.inbox| { SessionUpdated(s, u, j); }
      else { TakeKeepsSeats(s, j, r, u, u.sessions[j], s.now + s.timeoutMs + TICK_MS); }
    }
  }

  // ---- A query leaves -------------------------------------------------------------------------

  /** `t` is `s` after the query at `i` was settled: its session, if still there, is free again. */
  ghost predicate SeatFreed(s: State, t: State, i: nat) {
    && i < |s.pending| && t.pending == RemoveAt(s.pending, i) && t.nextSession == s.nextSession
    && |t.sessions| == |s.sessions|
    && (forall j :: 0 <= j < |s.sessions| ==>
          if s.pending[i].client == Tcp(s.sessions[j].id)
          then t.sessions[j].id == s.sessions[j].id && !t.sessions[j].busy && t.sessions[j].race == None
               && t.sessions[j].taken == s.sessions[j].taken
               && t.sessions[j].answered == s.sessions[j].answered + [s.pending[i].race]
          else t.sessions[j] == s.sessions[j])
  }

  lemma SettleFreesSeat(s: State, i: nat, answer: Answer)
    requires IdsUnique(s) && i < |s.pending| && s.pending[i].race in s.races
    ensures SeatFreed(s, Settle(s, i, answer), i)
  {
  }

  lemma ExpireFreesSeat(s: State, i: nat)
    requires IdsUnique(s) && Bookkeeping(s) && i < |s.pending|
    ensures forall p :: p in s.pending ==> p.race in s.races
    ensures SeatFreed(s, ExpireOne(s, i), i)
  {
    SettleFreesSeat(s, i, Failure);
  }

  lemma FreedKeepsSeats(s: State, t: State, i: nat)
    requires Seats(s) && Bookkeeping(s) && SeatFreed(s, t, i)
    ensures Seats(t)
  {
    forall j | 0 <= j < |t.sessions| && t.sessions[j].busy ensures Asks(t.pending, t.sessions[j]) {
      assert Asks(s.pending, s.sessions[j]);
      var k :| 0 <= k < |s.pending| && s.pending[k].client == Tcp(s.sessions[j].id) &&
        s.sessions[j].race == Some(s.pending[k].race);
      assert t.pending[if k < i then k else k - 1] == s.pending[k];
    }
    forall k, j | 0 <= k < |t.pending| && 0 <= j < |t.sessions| && t.pending[k].client == Tcp(t.sessions[j].id)
      ensures t.sessions[j].race == Some(t.pending[k].race)
    {
      assert t.pending[k] == s.pending[if k < i then k else k + 1];
    }
    forall k | 0 <= k < |t.pending| ensures t.pending[k] == s.pending[if k < i then k else k + 1] {}
  }

  lemma SettleKeepsSeats(s: State, i: nat, answer: Answer)
    requires Seats(s) && Bookkeeping(s) && i < |s.pending| && s.pending[i].race in s.races
    ensures Seats(Settle(s, i, answer))
  {
    SettleFreesSeat(s, i, answer);
    FreedKeepsSeats(s, Settle(s, i, answer), i);
  }

  lemma CollectOutcome(s: State)
    requires Bookkeeping(s) && s.batch != []
    ensures var rest, i := s.(batch := s.batch[1..]), FindPending(s.pending, s.batch[0].race, 0);
            || Collect(s) == rest
            || (i < |s.pending| && s.pending[i].race in s.races &&
                (Collect(s) == Settle(rest, i, Reply(s.batch[0].response)) || Collect(s) == Settle(rest, i, Failure)))
  {
  }

  lemma RestKeeps(s: State)
    requires Seats(s) && Bookkeeping(s) && s.batch != []
    ensures Seats(s.(batch := s.batch[1..])) && Bookkeeping(s.(batch := s.batch[1..]))
  {
  }

  lemma CollectKeepsSeats(s: State)
    requires Seats(s) && Bookkeeping(s) && s.batch != []
    ensures Seats(Collect(s))
  {
    var rest := s.(batch := s.batch[1..]);
    var i := FindPending(s.pending, s.batch[0].race, 0);
    CollectOutcome(s);
    RestKeeps(s);
    if i < |s.pending| && s.pending[i].race in s.races {
      SettleKeepsSeats(rest, i, Reply(s.batch[0].response));
      SettleKeepsSeats(rest, i, Failure);
    }
  }

  lemma {:induction false} ExpireKeepsSeats(s: State, i: nat)
    requires Seats(s) && Bookkeeping(s) && i <= |s.pending|
    ensures forall p :: p in s.pending ==> p.race in s.races
    ensures Seats(ExpireQueries(s, i))
    decreases |s.pending| - i
  {
    assert forall p :: p in s.pending ==> p.race in s.races;
    if i < |s.pending| {
      if s.now < s.pending[i].deadline {
        ExpireKeepsSeats(s, i + 1);
      } else {
        ExpireFreesSeat(s, i);
        FreedKeepsSeats(s, ExpireOne(s, i), i);
        ExpireOneBooks(s, i);
        ExpireKeepsSeats(ExpireOne(s, i), i);
      }
    }
  }

  lemma ExpireOneBooks(s: State, i: nat)
    requires Bookkeeping(s) && i < |s.pending|
    ensures forall p :: p in s.pending ==> p.race in s.races
    ensures Bookkeeping(ExpireOne(s, i))
  {
    SettleKeepsBooks(s, i, Failure);
  }

  lemma {:induction false} ExpireSessionsKeepsSeats(s: State, j: nat)
    requires Seats(s) && j <= |s.sessions|
    ensures Seats(ExpireSessions(s, j))
    decreases |s.sessions| - j
  {
    if j < |s.sessions| {
      if s.now < s.sessions[j].deadline {
        ExpireSessionsKeepsSeats(s, j + 1);
      } else {
        SessionRemoved(s, j);
        ExpireSessionsKeepsSeats(Drop(s, j), j);
      }
    }
  }

  // ---- Every step -----------------------------------------------------------------------------

  lemma SeatsUntouched(s: State, t: State)
    requires Seats(s) && t.sessions == s.sessions && t.pending == s.pending && t.nextSession == s.nextSession
    ensures Seats(t)
  {
  }

  lemma ArriveKeepsSeats(s: State, r: RaceId, message: seq<byte>)
    requires Seats(s) && r !in s.races
    ensures Seats(Arrive(s, r, message))
  {
    var t := Arrive(s, r, message);
    forall j | 0 <= j < |t.sessions| && t.sessions[j].busy ensures Asks(t.pending, t.sessions[j]) {
      assert Asks(s.pending, s.sessions[j]);
      var i :| 0 <= i < |s.pending| && s.pending[i].client == Tcp(s.sessions[j].id) &&
        s.sessions[j].race == Some(s.pending[i].race);
      assert t.pending[i] == s.pending[i];
    }
  }

  lemma SessionStepKeepsSeats(s: State, e: Event)
    requires Seats(s) && Enabled(s, e) && (e.ReceiveE? || e.WrittenE? || e.DropE? || e.AcceptE?)
    ensures Seats(Apply(s, e))
  {
    if e.ReceiveE? {
      var t := Buffered(s, e.session, e.messages);
      SessionUpdated(s, t, e.session);
      ServiceKeepsSeats(t, e.session, e.r);
    } else if e.WrittenE? {
      var t := Flushed(s, e.session);
      SessionUpdated(s, t, e.session);
      ServiceKeepsSeats(t, e.session, e.r);
    } else if e.DropE? {
      SessionRemoved(s, e.session);
    } else {
      AcceptKeepsSeats(s, e.prepared);
    }
  }

  lemma StepKeepsSeats(s: State, e: Event)
    requires Seats(s) && Bookkeeping(s) && Enabled(s, e)
    ensures Seats(Apply(s, e))
  {
    if e.ReceiveE? || e.WrittenE? || e.DropE? || e.AcceptE? {
      SessionStepKeepsSeats(s, e);
    } else if e.ArriveE? {
      ArriveKeepsSeats(s, e.r, e.message);
    } else if e.CollectE? {
      CollectKeepsSeats(s);
    } else if e.ExpireQueriesE? {
      ExpireKeepsSeats(s, 0);
      SeatsUntouched(ExpireQueries(s, 0), Apply(s, e));
    } else if e.ExpireSessionsE? {
      ExpireSessionsKeepsSeats(s, 0);
      SeatsUntouched(ExpireSessions(s, 0), Apply(s, e));
    } else {
      SeatsUntouched(s, Apply(s, e));
    }
  }

  lemma {:induction false} RunKeepsSeats(s: State, events: seq<Event>)
    requires Seats(s) && Good(s) && IsRun(s, events)
    ensures Seats(After(s, events))
    decreases |events|
  {
    if events != [] {
      StepKeepsSeats(s, events[0]);
      StepKeeps(s, events[0]);
      RunKeepsSeats(Apply(s, events[0]), events[1..]);
    }
  }

  /** In every run there are at most 32 sessions, and the connection of a live one is owned exactly
      while one pending query, and no other, names it: then nothing is queued for its client, and
      it is the only query taken that has not been answered. */
  lemma OneQueryOwnsTheConnection(timeoutMs: nat, events: seq<Event>, j: nat)
    requires IsRun(Start(timeoutMs), events) && j < |After(Start(timeoutMs), events).sessions|
    ensures var s := After(Start(timeoutMs), events);
            var t := s.sessions[j];
            && |s.sessions| <= 32
            && (t.busy <==> exists i :: 0 <= i < |s.pending| && s.pending[i].client == Tcp(t.id))
            && (forall i, k ::
                0 <= i < |s.pending| && 0 <= k < |s.pending| &&
                s.pending[i].client == s.pending[k].client == Tcp(t.id) ==>
                i == k)
            && (t.busy ==> !t.owed && t.race.Some? && t.taken == t.answered + [t.race.value] && Asks(s.pending, t))
            && (!t.busy ==> t.taken == t.answered)
  {
    var s := After(Start(timeoutMs), events);
    assert Good(Start(timeoutMs));
    RunKeeps(Start(timeoutMs), events);
    RunKeepsSeats(Start(timeoutMs), events);
    assert s.sessions[j].busy ==> Asks(s.pending, s.sessions[j]);
  }

  // ---- Making room ----------------------------------------------------------------------------

  /** The session `j` is idle for longer than `k`, or as long and comes first. */
  predicate Sooner(sessions: seq<Session>, j: nat, k: nat)
    requires j < |sessions| && k < |sessions|
  {
    sessions[j].deadline < sessions[k].deadline || (sessions[j].deadline == sessions[k].deadline && j <= k)
  }

  lemma {:induction false} LongestIdleFrom(sessions: seq<Session>, from: nat, best: nat)
    requires from <= |sessions| && best <= |sessions| && (best < |sessions| ==> best < from && !sessions[best].busy)
    requires forall k :: 0 <= k < from && !sessions[k].busy ==> best < |sessions| && Sooner(sessions, best, k)
    ensures var v := LongestIdle(sessions, from, best);
            forall k :: 0 <= k < |sessions| && !sessions[k].busy ==> v < |sessions| && Sooner(sessions, v, k)
    decreases |sessions| - from
  {
    if from < |sessions| {
      if !sessions[from].busy && (best == |sessions| || sessions[from].deadline < sessions[best].deadline) {
        LongestIdleFrom(sessions, from + 1, from);
      } else {
        LongestIdleFrom(sessions, from + 1, best);
      }
    }
  }

  /** At the cap nothing happens exactly when every session is busy. Otherwise one that is not goes, the
      first of the longest idle, whether or not the newcomer's socket can then be prepared, and every
      busy one stays. */
  lemma EvictionSparesTheBusy(s: State, prepared: bool)
    requires |s.sessions| == MAX_TCP_SESSIONS
    ensures Accept(s, prepared) == s <==> forall k :: 0 <= k < |s.sessions| ==> s.sessions[k].busy
    ensures Accept(s, prepared) != s ==>
              exists v :: 0 <= v < |s.sessions| && !s.sessions[v].busy &&
                Accept(s, prepared) == Welcomed(Drop(s, v), prepared) &&
                forall k :: 0 <= k < |s.sessions| && !s.sessions[k].busy ==> Sooner(s.sessions, v, k)
  {
    LongestIdleFrom(s.sessions, 0, |s.sessions|);
    var v := LongestIdle(s.sessions, 0, |s.sessions|);
    if v < |s.sessions| {
      var t := Accept(s, prepared);
      assert t.nextSession != s.nextSession || |t.sessions| < |s.sessions|;
    }
  }

  /** Not busy is not the same as not waiting: the session that goes still has its answer queued exactly
      if some idle session with an answer queued is sooner than every idle one without. */
  lemma EvictionLosesAnAnswerIff(s: State)
    requires |s.sessions| == MAX_TCP_SESSIONS && exists k :: 0 <= k < |s.sessions| && !s.sessions[k].busy
    ensures var v := LongestIdle(s.sessions, 0, |s.sessions|);
            && v < |s.sessions|
            && (s.sessions[v].owed <==>
                exists j :: 0 <= j < |s.sessions| && !s.sessions[j].busy && s.sessions[j].owed &&
                  forall k :: 0 <= k < |s.sessions| && !s.sessions[k].busy && !s.sessions[k].owed ==>
                    Sooner(s.sessions, j, k))
  {
    LongestIdleFrom(s.sessions, 0, |s.sessions|);
  }
}
