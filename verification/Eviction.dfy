/** An accepted client can cost another its answer (src/dns/dns_proxy.cpp:992-1016): a session stops
    being busy when its answer is queued, not when it is sent. */
module Eviction {
  import opened Bytes
  import opened NameCodec
  import opened Racing
  import opened RacingFailure
  import opened SessionSafety

  // ---- A full house ---------------------------------------------------------------------------

  function Newcomer(id: SessionId): Session {
    Session(id, false, None, TCP_IDLE_TIMEOUT_MS, [], false, true, [], [], [])
  }

  function Newcomers(n: nat): (sessions: seq<Session>)
    ensures |sessions| == n && forall i :: 0 <= i < n ==> sessions[i] == Newcomer(i)
  {
    seq(n, i requires 0 <= i < n => Newcomer(i))
  }

  function Crowd(timeoutMs: nat, n: nat): State {
    State(0, timeoutMs, Idle, map[], [], Newcomers(n), n, [], [])
  }

  function Arrivals(n: nat): seq<Event> {
    if n == 0 then [] else Arrivals(n - 1) + ([AcceptE(true)] + [])
  }

  lemma {:induction false} CrowdArrives(timeoutMs: nat, n: nat)
    requires n <= MAX_TCP_SESSIONS
    ensures Leads(Start(timeoutMs), Arrivals(n), Crowd(timeoutMs, n))
  {
    if n == 0 {
      assert Crowd(timeoutMs, 0) == Start(timeoutMs);
    } else {
      CrowdArrives(timeoutMs, n - 1);
      assert Newcomers(n) == Newcomers(n - 1) + [Newcomer(n - 1)];
      assert Apply(Crowd(timeoutMs, n - 1), AcceptE(true)) == Crowd(timeoutMs, n);
      Begin(Crowd(timeoutMs, n - 1), AcceptE(true), [], Crowd(timeoutMs, n));
      RunOn(Start(timeoutMs), Arrivals(n - 1), Crowd(timeoutMs, n - 1), [AcceptE(true)] + [], Crowd(timeoutMs, n));
    }
  }

  // ---- One of them asks -----------------------------------------------------------------------

  /** The crowd with the first client as `first`, while the loop is at `phase`. */
  function With(timeoutMs: nat, first: Session, phase: LoopPhase, race: Race): State {
    Crowd(timeoutMs, MAX_TCP_SESSIONS).(sessions := Newcomers(MAX_TCP_SESSIONS)[0 := first], phase := phase,
                                        races := map[0 := race])
  }

  function Asking(timeoutMs: nat, message: seq<byte>): Session {
    Newcomer(0).(busy := true, race := Some(0), deadline := timeoutMs + TICK_MS, received := [message], taken := [0])
  }

  /** Answered, with the answer queued and not sent. */
  function Owed(message: seq<byte>): Session {
    Newcomer(0).(owed := true, received := [message], taken := [0], answered := [0])
  }

  function Waiting(timeoutMs: nat, message: seq<byte>, phase: LoopPhase): State {
    With(timeoutMs, Asking(timeoutMs, message), phase, NewRace(message)).(
      pending := [Pending(0, Tcp(0), timeoutMs + TICK_MS)])
  }

  function Answered(timeoutMs: nat, message: seq<byte>, phase: LoopPhase): State {
    With(timeoutMs, Owed(message), phase, NewRace(message).(won := true, answers := [Failure]))
  }

  lemma AskingHappens(timeoutMs: nat, message: seq<byte>)
    requires IsQuery(message)
    ensures var s, e := Crowd(timeoutMs, MAX_TCP_SESSIONS), ReceiveE(0, [message], 0);
            Enabled(s, e) && Apply(s, e) == Waiting(timeoutMs, message, Dispatching(0))
  {
    var s := Crowd(timeoutMs, MAX_TCP_SESSIONS);
    var b := Buffered(s, 0, [message]);
    assert [] + [message] == [message] && [message][1..] == [];
    assert b.sessions[0] == Newcomer(0).(inbox := [message], received := [message]);
    assert FirstQuery(b.sessions[0].inbox, 0) == 0;
    assert [] + [0] == [0];
    assert Service(b, 0, 0).sessions[0] == Asking(timeoutMs, message);
    assert Service(b, 0, 0).sessions == Waiting(timeoutMs, message, Dispatching(0)).sessions;
  }

  lemma NoneExpires(s: State, i: nat)
    requires i <= |s.sessions| && forall k :: 0 <= k < |s.sessions| ==> s.now < s.sessions[k].deadline
    ensures ExpireSessions(s, i) == s
    decreases |s.sessions| - i
  {
    if i < |s.sessions| { NoneExpires(s, i + 1); }
  }

  /** No upstream takes the query, and the loop fails it: the failure is queued for the client. */
  lemma FailingHappens(timeoutMs: nat, message: seq<byte>)
    requires IsQuery(message)
    ensures var s := Waiting(timeoutMs, message, Draining).(batch := [Completion(0, [])]);
            Enabled(s, CollectE) && Apply(s, CollectE) == Answered(timeoutMs, message, Draining)
  {
    var s := Waiting(timeoutMs, message, Draining).(batch := [Completion(0, [])]);
    var rest := s.(batch := []);
    assert s.batch[1..] == [];
    assert FindPending(s.pending, 0, 0) == 0;
    var t := Settle(rest, 0, Failure);
    assert Collect(s) == t;
    assert RemoveAt(s.pending, 0) == [];
    assert FindSession(s.sessions, 0, 0) == 0;
    assert [] + [0] == [0];
    assert AnswerSession(s.sessions[0], 0, Failure, 0) == Owed(message);
    assert t.sessions == Answered(timeoutMs, message, Draining).sessions;
    assert [] + [Failure] == [Failure];
    assert t.races == Answered(timeoutMs, message, Draining).races;
  }

  /** The rest of that round of the loop. */
  function Round(): seq<Event> {
    [EndDispatchE] + ([TakeBatchE] + ([CollectE] + ([ExpireQueriesE] + ([ExpireSessionsE] + []))))
  }

  lemma RoundHappens(timeoutMs: nat, message: seq<byte>)
    requires IsQuery(message)
    ensures Leads(Waiting(timeoutMs, message, Dispatching(0)), Round(), Answered(timeoutMs, message, Idle))
  {
    var u := Answered(timeoutMs, message, Idle);
    var s0 := Waiting(timeoutMs, message, Dispatching(0));
    var s1 := Waiting(timeoutMs, message, Idle).(completions := [Completion(0, [])]);
    var s2 := Waiting(timeoutMs, message, Draining).(batch := [Completion(0, [])]);
    var s3 := Answered(timeoutMs, message, Draining);
    var s4 := Answered(timeoutMs, message, Expiring);
    assert [] + [Completion(0, [])] == [Completion(0, [])];
    assert Apply(s0, EndDispatchE) == s1;
    assert Apply(s1, TakeBatchE) == s2;
    FailingHappens(timeoutMs, message);
    assert Apply(s3, ExpireQueriesE) == s4;
    NoneExpires(s4, 0);
    assert Apply(s4, ExpireSessionsE) == u;
    Begin(s4, ExpireSessionsE, [], u);
    Begin(s3, ExpireQueriesE, [ExpireSessionsE] + [], u);
    Begin(s2, CollectE, [ExpireQueriesE] + ([ExpireSessionsE] + []), u);
    Begin(s1, TakeBatchE, [CollectE] + ([ExpireQueriesE] + ([ExpireSessionsE] + [])), u);
    Begin(s0, EndDispatchE, [TakeBatchE] + ([CollectE] + ([ExpireQueriesE] + ([ExpireSessionsE] + []))), u);
  }

  // ---- And is evicted -------------------------------------------------------------------------

  lemma FirstGoes(timeoutMs: nat, message: seq<byte>, prepared: bool)
    ensures var s := Answered(timeoutMs, message, Idle);
            forall k :: 0 <= k < |Accept(s, prepared).sessions| ==> Accept(s, prepared).sessions[k].id != 0
  {
    var s := Answered(timeoutMs, message, Idle);
    LongestIdleFrom(s.sessions, 0, |s.sessions|);
    var v := LongestIdle(s.sessions, 0, |s.sessions|);
    assert !s.sessions[0].busy && Sooner(s.sessions, v, 0);
    assert s.sessions[v].deadline == TCP_IDLE_TIMEOUT_MS;
    assert v == 0;
  }

  /** For every query there is a run in which it was answered over TCP, the answer is still queued, and
      the next client to come costs its client the connection, even one that is not let in. */
  lemma EvictionCanLoseAnAnswer(timeoutMs: nat, message: seq<byte>, prepared: bool)
    requires IsQuery(message)
    ensures exists events, s ::
              && Leads(Start(timeoutMs), events, s) && Enabled(s, AcceptE(prepared)) && |s.sessions| == 32
              && s.sessions[0].id == 0 && s.sessions[0].owed && 0 in s.races && s.races[0].message == message
              && s.races[0].answers == [Failure] && s.sessions[0].answered == [0]
              && forall k :: 0 <= k < |Apply(s, AcceptE(prepared)).sessions| ==>
                   Apply(s, AcceptE(prepared)).sessions[k].id != 0
  {
    var crowd := Crowd(timeoutMs, MAX_TCP_SESSIONS);
    var waiting := Waiting(timeoutMs, message, Dispatching(0));
    var s := Answered(timeoutMs, message, Idle);
    CrowdArrives(timeoutMs, MAX_TCP_SESSIONS);
    AskingHappens(timeoutMs, message);
    RoundHappens(timeoutMs, message);
    Begin(crowd, ReceiveE(0, [message], 0), Round(), s);
    RunOn(Start(timeoutMs), Arrivals(MAX_TCP_SESSIONS), crowd, [ReceiveE(0, [message], 0)] + Round(), s);
    FirstGoes(timeoutMs, message, prepared);
  }
}
