/** The loop thread's own code (src/dns/dns_proxy.cpp): the loops over the pending queries and the
    sessions, each doing what the step of the same name does to the state. */
module ForwarderLoop {
  import opened Bytes
  import opened NameCodec
  import opened Racing

  class DnsProxyState {
    var now: nat
    var timeoutMs: nat
    var phase: LoopPhase
    var races: map<RaceId, Race>
    var pending: seq<Pending>
    var sessions: seq<Session>
    var nextSession: SessionId
    var completions: seq<Completion>
    var batch: seq<Completion>

    ghost function View(): State
      reads this
    {
      State(now, timeoutMs, phase, races, pending, sessions, nextSession, completions, batch)
    }

    constructor (timeout: nat)
      ensures View() == Start(timeout)
    {
      now, timeoutMs, phase, races, pending, sessions, nextSession, completions, batch :=
        0, timeout, Idle, map[], [], [], 0, [], [];
    }

    /** Where the query of `race` is pending, or the number of pending queries. */
    method FindPendingOf(race: RaceId) returns (i: nat)
      ensures i == FindPending(pending, race, 0)
    {
      i := 0;
      while i < |pending| && pending[i].race != race
        invariant i <= |pending| && FindPending(pending, race, 0) == FindPending(pending, race, i)
      {
        i := i + 1;
      }
    }

    method FindSessionOf(id: SessionId) returns (i: nat)
      ensures i == FindSession(sessions, id, 0)
    {
      i := 0;
      while i < |sessions| && sessions[i].id != id
        invariant i <= |sessions| && FindSession(sessions, id, 0) == FindSession(sessions, id, i)
      {
        i := i + 1;
      }
    }

    method DeliverTo(p: Pending, answer: Answer)
      requires p.race in races
      modifies this`races, this`sessions
      ensures View() == Deliver(old(View()), p, answer)
    {
      races := races[p.race := races[p.race].(answers := races[p.race].answers + [answer])];
      if p.client.Tcp? {
        var i := FindSessionOf(p.client.session);
        if i < |sessions| {
          var t := sessions[i];
          t := t.(busy := false, race := None, answered := t.answered + [p.race]);
          if answer.Reply? && (|answer.response| == 0 || |answer.response| > MAX_MESSAGE) {
            t := t.(open := false);
          } else {
            t := t.(owed := true, deadline := now + TCP_IDLE_TIMEOUT_MS);
          }
          sessions := sessions[i := t];
        }
      }
    }

    method AcceptTcpClient(prepared: bool)
      modifies this`sessions, this`nextSession
      ensures View() == Accept(old(View()), prepared)
    {
      if |sessions| >= MAX_TCP_SESSIONS {
        var victim, i := |sessions|, 0;
        while i < |sessions|
          invariant 0 <= i <= |sessions| && 0 <= victim <= |sessions|
          invariant victim < |sessions| ==> !sessions[victim].busy
          invariant sessions == old(sessions) && nextSession == old(nextSession)
          invariant LongestIdle(sessions, 0, |sessions|) == LongestIdle(sessions, i, victim)
        {
          if !sessions[i].busy && (victim == |sessions| || sessions[i].deadline < sessions[victim].deadline) {
            victim := i;
          }
          i := i + 1;
        }
        if victim == |sessions| { return; }
        sessions := sessions[..victim] + sessions[victim + 1..];
      }
      if !prepared { return; }
      sessions := sessions +
        [Session(nextSession, false, None, now + TCP_IDLE_TIMEOUT_MS, [], false, true, [], [], [])];
      nextSession := nextSession + 1;
    }

    /** Take queries from the session's reader until one parses; it is entered as race `r`. */
    method ServiceTcpSession(i: nat, r: RaceId)
      requires i < |sessions| && r !in races
      modifies this
      ensures View() == Service(old(View()), i, r)
    {
      var t := sessions[i];
      if t.busy { return; }
      ghost var inbox := t.inbox;
      ghost var taken := 0;
      while t.inbox != []
        invariant View() == old(View())
        invariant taken <= |inbox| && t == sessions[i].(inbox := inbox[taken..])
        invariant FirstQuery(inbox, 0) == FirstQuery(inbox, taken)
        decreases |t.inbox|
      {
        var message := t.inbox[0];
        t := t.(inbox := t.inbox[1..]);
        taken := taken + 1;
        var ok, query := ParseQuery(message, Query(0, 0, [], 0, 0, 0));
        if ok {
          t := t.(busy := true, race := Some(r), deadline := now + timeoutMs + TICK_MS, taken := t.taken + [r]);
          races := races[r := NewRace(message)];
          sessions := sessions[i := t];
          pending := pending + [Pending(r, Tcp(t.id), t.deadline)];
          phase := Dispatching(r);
          return;
        }
      }
      sessions := sessions[i := t];
    }

    /** Whether what an upstream said answers the query of `message`. */
    method Answers(response: seq<byte>, message: seq<byte>) returns (valid: bool)
      ensures valid <==> ValidAnswer(response, message)
    {
      var ok, query := ParseQuery(message, Query(0, 0, [], 0, 0, 0));
      if !ok { return false; }
      var end := query.questionEnd;
      if |response| < 12 || end < 12 || end > |message| || |response| < end { return false; }
      if response[0] != message[0] || response[1] != message[1] { return false; }
      if response[2] < 0x80 || response[2] / 8 % 16 != 0 || response[2] / 2 % 2 != 0 { return false; }
      return response[12..end] == message[12..end];
    }

    method SettleAt(i: nat, answer: Answer)
      requires i < |pending| && pending[i].race in races
      modifies this`races, this`sessions, this`pending
      ensures View() == Settle(old(View()), i, answer)
    {
      var p := pending[i];
      races := races[p.race := races[p.race].(won := true)];
      DeliverTo(p, answer);
      pending := pending[..i] + pending[i + 1..];
    }

    /** One round of the harvest: the completion at the front of the batch. */
    method CollectNext()
      requires batch != []
      modifies this
      ensures View() == Collect(old(View()))
    {
      var c := batch[0];
      batch := batch[1..];
      var i := FindPendingOf(c.race);
      if i == |pending| || c.race !in races { return; }
      var race := races[c.race];
      if !race.won && c.response != [] {
        var valid := Answers(c.response, race.message);
        if valid {
          SettleAt(i, Reply(c.response));
          return;
        }
      }
      if !race.won && race.done >= race.total {
        SettleAt(i, Failure);
      }
    }

    method ExpirePending()
      requires forall p :: p in pending ==> p.race in races
      modifies this
      ensures View() == ExpireQueries(old(View()), 0)
    {
      var i := 0;
      while i < |pending|
        invariant i <= |pending| && forall p :: p in pending ==> p.race in races
        invariant now == old(now)
        invariant ExpireQueries(old(View()), 0) == ExpireQueries(View(), i)
        decreases |pending| - i
      {
        if now < pending[i].deadline {
          i := i + 1;
        } else {
          ExpireAt(i);
        }
      }
    }

    method ExpireAt(i: nat)
      requires i < |pending| && forall p :: p in pending ==> p.race in races
      modifies this`races, this`sessions, this`pending
      ensures View() == ExpireOne(old(View()), i)
    {
      var p := pending[i];
      if races[p.race].won {
        pending := pending[..i] + pending[i + 1..];
      } else {
        SettleAt(i, Failure);
      }
      if p.client.Tcp? {
        var j := FindSessionOf(p.client.session);
        if j < |sessions| {
          sessions := sessions[j := sessions[j].(busy := false, race := None, deadline := now + TCP_IDLE_TIMEOUT_MS)];
        }
      }
    }

    method ExpireTcpSessions()
      modifies this`sessions
      ensures View() == ExpireSessions(old(View()), 0)
    {
      var i := 0;
      while i < |sessions|
        invariant i <= |sessions|
        invariant ExpireSessions(old(View()), 0) == ExpireSessions(View(), i)
        decreases |sessions| - i
      {
        if now < sessions[i].deadline {
          i := i + 1;
        } else {
          sessions := sessions[..i] + sessions[i + 1..];
        }
      }
    }
  }
}
