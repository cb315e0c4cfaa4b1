/** When a client is told its lookup failed (src/dns/dns_proxy.cpp:1086-1138). */
module RacingFailure {
  import opened Bytes
  import opened NameCodec
  import opened Racing
  import opened RacingSafety

  /** Collecting fails `r` only from `r`'s own completion, with all of its tasks counted. */
  lemma CollectFails(s: State, r: RaceId)
    requires Good(s) && Enabled(s, CollectE) && r in s.races && s.races[r].answers == []
    ensures r in Collect(s).races
    ensures Collect(s).races[r].answers == [Failure] ==>
      r == s.batch[0].race && s.races[r].done >= s.races[r].total &&
      !(s.batch[0].response != [] && ValidAnswer(s.batch[0].response, s.races[r].message))
  {
    var c, rest := s.batch[0], s.(batch := s.batch[1..]);
    var i := FindPending(s.pending, c.race, 0);
    if i < |s.pending| {
      var race := s.races[c.race];
      if !race.won && c.response != [] && ValidAnswer(c.response, race.message) {
        SettleFrame(rest, i, Reply(c.response));
        assert Collect(s).races[c.race].answers[0] == Reply(c.response);
      } else if !race.won && race.done >= race.total {
        SettleFrame(rest, i, Failure);
      }
    }
  }

  /** When the loop fails a query before its deadline, every task it submitted has finished. */
  lemma EarlyFailureMeansAllDone(s: State, r: RaceId)
    requires Good(s) && Enabled(s, CollectE) && r in s.races && s.races[r].answers == []
    ensures r in Collect(s).races
    ensures Collect(s).races[r].answers == [Failure] ==>
      s.races[r].done == s.races[r].total && s.races[r].queued == s.races[r].asking == s.races[r].holding == 0
  {
    CollectFails(s, r);
    assert TasksAddUp(s.races[r]);
  }

  /** Nothing reaches the loop that no task counted. */
  ghost predicate NothingInvented(s: State) {
    && (forall c :: c in s.completions || c in s.batch ==>
        c.race in s.races && (c.response == [] || c.response in s.races[c.race].heard))
    && (forall r, x :: r in s.races && x in s.races[r].counted ==> x in s.races[r].heard)
  }

  lemma SettleInventsNothing(s: State, i: nat, answer: Answer)
    requires NothingInvented(s) && i < |s.pending| && s.pending[i].race in s.races
    ensures NothingInvented(Settle(s, i, answer))
  {
    SettleFrame(s, i, answer);
  }

  lemma {:induction false} ExpireInventsNothing(s: State, i: nat)
    requires NothingInvented(s) && i <= |s.pending| && forall p :: p in s.pending ==> p.race in s.races
    ensures NothingInvented(ExpireQueries(s, i))
    decreases |s.pending| - i
  {
    if i < |s.pending| {
      if s.now < s.pending[i].deadline {
        ExpireInventsNothing(s, i + 1);
      } else {
        SettleInventsNothing(s, i, Failure);
        ExpireInventsNothing(ExpireOne(s, i), i);
      }
    }
  }

  lemma PostInventsNothing(s: State, r: RaceId, i: nat)
    requires NothingInvented(s) && r in s.races && i < |s.races[r].counted|
    ensures NothingInvented(PostTask(s, r, i))
  {
    var t := PostTask(s, r, i);
    forall x | x in t.races[r].counted ensures x in s.races[r].counted {
      var j :| 0 <= j < |t.races[r].counted| && t.races[r].counted[j] == x;
      assert x == s.races[r].counted[if j < i then j else j + 1];
    }
    assert s.races[r].counted[i] in s.races[r].counted;
  }

  lemma CollectInventsNothing(s: State)
    requires NothingInvented(s) && s.batch != []
    ensures NothingInvented(Collect(s))
  {
    var rest := s.(batch := s.batch[1..]);
    assert NothingInvented(rest);
    var i := FindPending(s.pending, s.batch[0].race, 0);
    if i < |s.pending| && s.batch[0].race in s.races {
      SettleInventsNothing(rest, i, Reply(s.batch[0].response));
      SettleInventsNothing(rest, i, Failure);
    }
  }

  lemma ServiceInventsNothing(s: State, i: nat, r: RaceId)
    requires NothingInvented(s) && i < |s.sessions| && r !in s.races
    ensures NothingInvented(Service(s, i, r))
  {
  }

  lemma WorkerInventsNothing(s: State, e: Event)
    requires NothingInvented(s) && Enabled(s, e) && (e.StartTaskE? || e.ReturnE? || e.CountE? || e.PostE?)
    ensures NothingInvented(Apply(s, e))
  {
    if e.PostE? { PostInventsNothing(s, e.r, e.i); }
  }

  lemma StepInventsNothing(s: State, e: Event)
    requires NothingInvented(s) && Enabled(s, e)
    ensures NothingInvented(Apply(s, e))
  {
    if e.ExpireQueriesE? {
      ExpireInventsNothing(s, 0);
    } else if e.ExpireSessionsE? {
      ExpireSessionsBooks(s, 0);
    } else if e.StartTaskE? || e.ReturnE? || e.CountE? || e.PostE? {
      WorkerInventsNothing(s, e);
    } else if e.CollectE? {
      CollectInventsNothing(s);
    } else if e.ReceiveE? {
      ServiceInventsNothing(Buffered(s, e.session, e.messages), e.session, e.r);
    } else if e.WrittenE? {
      ServiceInventsNothing(Flushed(s, e.session), e.session, e.r);
    }
  }

  lemma {:induction false} RunInventsNothing(s: State, events: seq<Event>)
    requires NothingInvented(s) && IsRun(s, events)
    ensures NothingInvented(After(s, events))
    decreases |events|
  {
    if events != [] {
      StepInventsNothing(s, events[0]);
      RunInventsNothing(Apply(s, events[0]), events[1..]);
    }
  }

  /** Some upstream's answer to `r` was valid. */
  ghost predicate HeardValid(s: State, r: RaceId)
    requires r in s.races
  {
    exists x :: x in s.races[r].heard && x != [] && ValidAnswer(x, s.races[r].message)
  }

  /** A valid answer to `r` waits behind the completion the loop is looking at. */
  ghost predicate ValidBehind(s: State, r: RaceId)
    requires r in s.races && s.batch != []
  {
    exists x :: x != [] && ValidAnswer(x, s.races[r].message) &&
      (x in s.races[r].counted || Completion(r, x) in s.completions || Completion(r, x) in s.batch[1..])
  }

  /** A query's valid answers are heard exactly where they wait, once its completion at hand is
      not one of them. */
  lemma HeardIffBehind(s: State, r: RaceId)
    requires Good(s) && NothingInvented(s) && s.batch != [] && r in s.races && s.races[r].answers == []
    requires r == s.batch[0].race
    requires !(s.batch[0].response != [] && ValidAnswer(s.batch[0].response, s.races[r].message))
    ensures HeardValid(s, r) <==> ValidBehind(s, r)
  {
    assert InPending(s.pending, r);
    var i :| 0 <= i < |s.pending| && s.pending[i].race == r;
    assert s.batch == [s.batch[0]] + s.batch[1..];
    if HeardValid(s, r) {
      var x :| x in s.races[r].heard && x != [] && ValidAnswer(x, s.races[r].message);
      assert OnItsWay(s, s.pending[i].race, x);
    }
    if ValidBehind(s, r) {
      var x :| x != [] && ValidAnswer(x, s.races[r].message) &&
        (x in s.races[r].counted || Completion(r, x) in s.completions || Completion(r, x) in s.batch[1..]);
      assert x in s.races[r].heard;
    }
  }

  /** Failing a query is wrong, because some upstream had answered it, exactly when a valid
      answer still waits behind the completion at hand: in the rest of the batch, among the
      completions posted since, or counted and about to be posted. */
  lemma FailureIsWrongIff(timeoutMs: nat, events: seq<Event>, r: RaceId)
    requires IsRun(Start(timeoutMs), events)
    requires var s := After(Start(timeoutMs), events);
             Enabled(s, CollectE) && r in s.races && s.races[r].answers == []
    ensures var s := After(Start(timeoutMs), events);
            && r in Collect(s).races
            && (Collect(s).races[r].answers == [Failure] ==> (HeardValid(s, r) <==> ValidBehind(s, r)))
  {
    var s := After(Start(timeoutMs), events);
    assert Good(Start(timeoutMs));
    RunKeeps(Start(timeoutMs), events);
    RunInventsNothing(Start(timeoutMs), events);
    CollectFails(s, r);
    if Collect(s).races[r].answers == [Failure] { HeardIffBehind(s, r); }
  }

  // ---- The failure that hides an answer -------------------------------------------------------

  ghost predicate Leads(s: State, events: seq<Event>, t: State) {
    IsRun(s, events) && After(s, events) == t
  }

  lemma Begin(s: State, e: Event, rest: seq<Event>, t: State)
    requires Enabled(s, e) && Leads(Apply(s, e), rest, t)
    ensures Leads(s, [e] + rest, t)
  {
    assert ([e] + rest)[1..] == rest;
  }

  /** A query for which two upstreams are to be asked. */
  function Asked(message: seq<byte>): seq<Event> {
    [ArriveE(0, message)] + ([SubmitE(true)] + ([SubmitE(true)] + ([EndDispatchE] + [])))
  }

  function Underway(timeoutMs: nat, race: Race): State {
    State(0, timeoutMs, Idle, map[0 := race], [Pending(0, Udp, timeoutMs + TICK_MS)], [], 0, [], [])
  }

  lemma AskedHappens(timeoutMs: nat, message: seq<byte>)
    requires IsQuery(message)
    ensures Leads(Start(timeoutMs), Asked(message), Underway(timeoutMs, NewRace(message).(total := 2, queued := 2)))
  {
    var t := Underway(timeoutMs, NewRace(message).(total := 2, queued := 2));
    var s0 := Start(timeoutMs);
    var s1 := Apply(s0, ArriveE(0, message));
    var s2 := Apply(s1, SubmitE(true));
    var s3 := Apply(s2, SubmitE(true));
    assert Apply(s3, EndDispatchE) == t;
    Begin(s3, EndDispatchE, [], t);
    Begin(s2, SubmitE(true), [EndDispatchE] + [], t);
    Begin(s1, SubmitE(true), [SubmitE(true)] + ([EndDispatchE] + []), t);
    Begin(s0, ArriveE(0, message), [SubmitE(true)] + ([SubmitE(true)] + ([EndDispatchE] + [])), t);
  }

  lemma StartedHappens(timeoutMs: nat, message: seq<byte>)
    ensures Leads(Underway(timeoutMs, NewRace(message).(total := 2, queued := 2)),
                  [StartTaskE(0)] + ([StartTaskE(0)] + []),
                  Underway(timeoutMs, NewRace(message).(total := 2, asking := 2)))
  {
    var t := Underway(timeoutMs, NewRace(message).(total := 2, asking := 2));
    var s0 := Underway(timeoutMs, NewRace(message).(total := 2, queued := 2));
    var s1 := Apply(s0, StartTaskE(0));
    assert Apply(s1, StartTaskE(0)) == t;
    Begin(s1, StartTaskE(0), [], t);
    Begin(s0, StartTaskE(0), [StartTaskE(0)] + [], t);
  }

  /** The two tasks return and are counted: the first came back empty, the second with `answer`. */
  function Returned(answer: seq<byte>): seq<Event> {
    [ReturnE(0)] + ([ReturnE(0)] + ([CountE(0, [])] + ([CountE(0, answer)] + [])))
  }

  lemma ReturnedHappens(timeoutMs: nat, message: seq<byte>, answer: seq<byte>)
    ensures Leads(Underway(timeoutMs, NewRace(message).(total := 2, asking := 2)), Returned(answer),
                  Underway(timeoutMs, NewRace(message).(total := 2, done := 2, counted := [[], answer],
                                                        heard := [[], answer])))
  {
    var t := Underway(timeoutMs, NewRace(message).(total := 2, done := 2, counted := [[], answer],
                                                   heard := [[], answer]));
    var s0 := Underway(timeoutMs, NewRace(message).(total := 2, asking := 2));
    var s1 := Apply(s0, ReturnE(0));
    var s2 := Apply(s1, ReturnE(0));
    var s3 := Apply(s2, CountE(0, []));
    assert s3.races[0].counted == [[]] == s3.races[0].heard;
    assert Apply(s3, CountE(0, answer)) == t by { assert [[]] + [answer] == [[], answer]; }
    Begin(s3, CountE(0, answer), [], t);
    Begin(s2, CountE(0, []), [CountE(0, answer)] + [], t);
    Begin(s1, ReturnE(0), [CountE(0, [])] + ([CountE(0, answer)] + []), t);
    Begin(s0, ReturnE(0), [ReturnE(0)] + ([CountE(0, [])] + ([CountE(0, answer)] + [])), t);
  }

  /** The failure is posted, and the loop takes it up before the answer follows. */
  function Overtaken(timeoutMs: nat, message: seq<byte>, answer: seq<byte>): State {
    State(0, timeoutMs, Draining, map[0 := NewRace(message).(total := 2, done := 2, counted := [answer],
                                                             heard := [[], answer])],
          [Pending(0, Udp, timeoutMs + TICK_MS)], [], 0, [], [Completion(0, [])])
  }

  lemma OvertakenHappens(timeoutMs: nat, message: seq<byte>, answer: seq<byte>)
    ensures Leads(Underway(timeoutMs, NewRace(message).(total := 2, done := 2, counted := [[], answer],
                                                        heard := [[], answer])),
                  [PostE(0, 0)] + ([TakeBatchE] + []), Overtaken(timeoutMs, message, answer))
  {
    var t := Overtaken(timeoutMs, message, answer);
    var s4 := Underway(timeoutMs, NewRace(message).(total := 2, done := 2, counted := [[], answer],
                                                    heard := [[], answer]));
    var s5 := Apply(s4, PostE(0, 0));
    assert s5.races[0].counted == [answer];
    assert Apply(s5, TakeBatchE) == t;
    Begin(s5, TakeBatchE, [], t);
    Begin(s4, PostE(0, 0), [TakeBatchE] + [], t);
  }

  lemma {:induction false} RunOn(s: State, first: seq<Event>, t: State, second: seq<Event>, u: State)
    requires Leads(s, first, t) && Leads(t, second, u)
    ensures Leads(s, first + second, u)
    decreases |first|
  {
    if first == [] {
      assert first + second == second;
    } else {
      RunOn(Apply(s, first[0]), first[1..], t, second, u);
      assert (first + second)[1..] == first[1..] + second;
    }
  }

  /** An answer to `message`: the query itself sent back as a response. */
  lemma EchoIsValid(message: seq<byte>)
    requires IsQuery(message)
    ensures ValidAnswer(message[2 := 0x80], message)
  {
  }

  lemma OvertakenFails(timeoutMs: nat, message: seq<byte>, answer: seq<byte>)
    requires ValidAnswer(answer, message)
    ensures var s := Overtaken(timeoutMs, message, answer);
            Enabled(s, CollectE) && HeardValid(s, 0) && 0 in Collect(s).races &&
              Collect(s).races[0].answers == [Failure]
  {
    var s := Overtaken(timeoutMs, message, answer);
    assert s.races[0].heard[1] == answer;
    SettleFrame(s.(batch := s.batch[1..]), 0, Failure);
    assert [] + [Failure] == [Failure];
  }

  /** "Failed only if every upstream failed" is not so: for every query there is a run in which a
      valid answer was heard, and the next thing the loop does is tell the client it failed. */
  lemma FailureCanHideAnAnswer(timeoutMs: nat, message: seq<byte>)
    requires IsQuery(message)
    ensures exists events, s ::
              && Leads(Start(timeoutMs), events, s)
              && Enabled(s, CollectE) && 0 in s.races && s.races[0].message == message && HeardValid(s, 0)
              && 0 in Collect(s).races && Collect(s).races[0].answers == [Failure]
  {
    var answer := message[2 := 0x80];
    EchoIsValid(message);
    AskedHappens(timeoutMs, message);
    StartedHappens(timeoutMs, message);
    ReturnedHappens(timeoutMs, message, answer);
    OvertakenHappens(timeoutMs, message, answer);
    var asked := Underway(timeoutMs, NewRace(message).(total := 2, queued := 2));
    var started := Underway(timeoutMs, NewRace(message).(total := 2, asking := 2));
    var returned := Underway(timeoutMs, NewRace(message).(total := 2, done := 2, counted := [[], answer],
                                                          heard := [[], answer]));
    var s := Overtaken(timeoutMs, message, answer);
    RunOn(Start(timeoutMs), Asked(message), asked, [StartTaskE(0)] + ([StartTaskE(0)] + []), started);
    RunOn(started, Returned(answer), returned, [PostE(0, 0)] + ([TakeBatchE] + []), s);
    RunOn(Start(timeoutMs), Asked(message) + ([StartTaskE(0)] + ([StartTaskE(0)] + [])), started,
          Returned(answer) + ([PostE(0, 0)] + ([TakeBatchE] + [])), s);
    OvertakenFails(timeoutMs, message, answer);
  }

  // ---- The deadline ---------------------------------------------------------------------------

  function Unexpired(pending: seq<Pending>, now: nat): seq<Pending> {
    if pending == [] then []
    else (if now < pending[0].deadline then [pending[0]] else []) + Unexpired(pending[1..], now)
  }

  predicate Overdue(pending: seq<Pending>, now: nat, r: RaceId) {
    pending != [] && ((pending[0].race == r && pending[0].deadline <= now) || Overdue(pending[1..], now, r))
  }

  lemma {:induction false} OverdueIff(pending: seq<Pending>, now: nat, r: RaceId)
    ensures Overdue(pending, now, r) <==> exists p :: p in pending && p.race == r && p.deadline <= now
  {
    if pending != [] {
      OverdueIff(pending[1..], now, r);
      assert pending == [pending[0]] + pending[1..];
    }
  }

  function Failed(race: Race, expired: bool): Race {
    if expired then race.(won := true, answers := [Failure]) else race
  }

  /** One expired query fails, and no other race hears of it. */
  lemma ExpireOneFrame(s: State, i: nat, r: RaceId)
    requires Bookkeeping(s) && i < |s.pending| && r in s.races
    ensures forall p :: p in s.pending ==> p.race in s.races
    ensures var t := ExpireOne(s, i);
            && Bookkeeping(t) && t.now == s.now && r in t.races
            && t.races[r] == Failed(s.races[r], s.pending[i].race == r)
            && t.pending[..i] == s.pending[..i] && t.pending[i..] == s.pending[i..][1..]
  {
    SettleFrame(s, i, Failure);
    SettleKeepsBooks(s, i, Failure);
    assert [] + [Failure] == [Failure];
    assert ExpireOne(s, i).pending == s.pending[..i] + s.pending[i + 1..];
  }

  lemma {:induction false} ExpiryLeaves(s: State, i: nat)
    requires i <= |s.pending| && forall p :: p in s.pending ==> p.race in s.races
    ensures ExpireQueries(s, i).pending == s.pending[..i] + Unexpired(s.pending[i..], s.now)
    decreases |s.pending| - i
  {
    if i < |s.pending| {
      assert s.pending[i..][1..] == s.pending[i + 1..];
      if s.now < s.pending[i].deadline {
        ExpiryLeaves(s, i + 1);
        assert s.pending[..i + 1] == s.pending[..i] + [s.pending[i]];
      } else {
        ExpiryLeaves(ExpireOne(s, i), i);
      }
    }
  }

  lemma OverdueSkips(s: State, i: nat, r: RaceId)
    requires i < |s.pending| && s.now < s.pending[i].deadline
    ensures Overdue(s.pending[i..], s.now, r) == Overdue(s.pending[i + 1..], s.now, r)
  {
    assert s.pending[i..][1..] == s.pending[i + 1..];
  }

  lemma {:induction false} ExpiryOf(s: State, i: nat, r: RaceId)
    requires Bookkeeping(s) && i <= |s.pending| && r in s.races
    ensures forall p :: p in s.pending ==> p.race in s.races
    ensures r in ExpireQueries(s, i).races
    ensures ExpireQueries(s, i).races[r] == Failed(s.races[r], Overdue(s.pending[i..], s.now, r))
    decreases |s.pending| - i
  {
    assert forall p :: p in s.pending ==> p.race in s.races;
    if i < |s.pending| {
      if s.now < s.pending[i].deadline {
        OverdueSkips(s, i, r);
        ExpiryOf(s, i + 1, r);
      } else {
        ExpireOneFrame(s, i, r);
        ExpiryOf(ExpireOne(s, i), i, r);
      }
    }
  }

  /** One pass fails exactly the queries whose deadline has passed, and leaves every other query
      and race as it was. */
  lemma ExpiryIsExact(s: State, r: RaceId)
    requires Bookkeeping(s) && r in s.races
    ensures forall p :: p in s.pending ==> p.race in s.races
    ensures var t := ExpireQueries(s, 0);
            && t.pending == Unexpired(s.pending, s.now)
            && r in t.races
            && ((exists p :: p in s.pending && p.race == r && p.deadline <= s.now) ==>
                t.races[r].answers == [Failure] && t.races[r].won)
            && (!(exists p :: p in s.pending && p.race == r && p.deadline <= s.now) ==> t.races[r] == s.races[r])
  {
    ExpiryLeaves(s, 0);
    ExpiryOf(s, 0, r);
    OverdueIff(s.pending, s.now, r);
    assert s.pending[0..] == s.pending;
  }

  // ---- Answers the deadline hides -------------------------------------------------------------

  /** Something a task of `r` brought has not reached the loop: it is counted and about to be posted,
      posted, or in `rest` of the batch. */
  ghost predicate Waits(s: State, r: RaceId, rest: seq<Completion>)
    requires r in s.races
  {
    s.races[r].counted != [] || (exists x :: Completion(r, x) in s.completions || Completion(r, x) in rest)
  }

  /** A valid answer to `r` has not reached the loop. */
  ghost predicate ValidWaits(s: State, r: RaceId)
    requires r in s.races
  {
    exists x :: x != [] && ValidAnswer(x, s.races[r].message) &&
      (x in s.races[r].counted || Completion(r, x) in s.completions)
  }

  lemma HeardIffWaits(s: State, r: RaceId)
    requires Good(s) && NothingInvented(s) && s.batch == [] && InPending(s.pending, r) && r in s.races
    ensures HeardValid(s, r) <==> ValidWaits(s, r)
  {
    var i :| 0 <= i < |s.pending| && s.pending[i].race == r;
    if HeardValid(s, r) {
      var x :| x in s.races[r].heard && x != [] && ValidAnswer(x, s.races[r].message);
      assert OnItsWay(s, s.pending[i].race, x);
    }
    if ValidWaits(s, r) {
      var x :| x != [] && ValidAnswer(x, s.races[r].message) &&
        (x in s.races[r].counted || Completion(r, x) in s.completions);
      assert x in s.races[r].heard;
    }
  }

  /** The query of `r` is pending past its deadline. */
  ghost predicate IsOverdue(s: State, r: RaceId) {
    exists p :: p in s.pending && p.race == r && p.deadline <= s.now
  }

  /** A query failed at its deadline had been answered by some upstream exactly when a valid answer
      is posted and not collected, or counted and about to be posted. */
  lemma DeadlineFailureIsWrongIff(timeoutMs: nat, events: seq<Event>, r: RaceId)
    requires IsRun(Start(timeoutMs), events)
    requires var s := After(Start(timeoutMs), events); Enabled(s, ExpireQueriesE) && r in s.races && IsOverdue(s, r)
    ensures var s := After(Start(timeoutMs), events);
            && r in ExpireQueries(s, 0).races && ExpireQueries(s, 0).races[r].answers == [Failure]
            && (HeardValid(s, r) <==> ValidWaits(s, r))
  {
    var s := After(Start(timeoutMs), events);
    assert Good(Start(timeoutMs));
    RunKeeps(Start(timeoutMs), events);
    RunInventsNothing(Start(timeoutMs), events);
    ExpiryIsExact(s, r);
    var p :| p in s.pending && p.race == r && p.deadline <= s.now;
    assert InPending(s.pending, r);
    HeardIffWaits(s, r);
  }

  /** What the loop could ask for: once nothing the race's tasks brought still waits, neither a failure
      from a completion nor one at the deadline hides an answer. */
  lemma NothingWaitingHidesNothing(timeoutMs: nat, events: seq<Event>, r: RaceId)
    requires IsRun(Start(timeoutMs), events) && r in After(Start(timeoutMs), events).races
    ensures var s := After(Start(timeoutMs), events);
            Enabled(s, CollectE) && s.races[r].answers == [] && !Waits(s, r, s.batch[1..]) ==>
              && r in Collect(s).races
              && (Collect(s).races[r].answers == [Failure] ==> !HeardValid(s, r))
    ensures var s := After(Start(timeoutMs), events);
            Enabled(s, ExpireQueriesE) && IsOverdue(s, r) && !Waits(s, r, []) ==> !HeardValid(s, r)
  {
    var s := After(Start(timeoutMs), events);
    if Enabled(s, CollectE) && s.races[r].answers == [] { FailureIsWrongIff(timeoutMs, events, r); }
    if Enabled(s, ExpireQueriesE) && IsOverdue(s, r) { DeadlineFailureIsWrongIff(timeoutMs, events, r); }
  }

  /** The deadline passes while the answers are counted and not posted yet. */
  function TooLate(timeoutMs: nat, message: seq<byte>, answer: seq<byte>): State {
    State(timeoutMs + TICK_MS, timeoutMs, Draining,
          map[0 := NewRace(message).(total := 2, done := 2, counted := [[], answer], heard := [[], answer])],
          [Pending(0, Udp, timeoutMs + TICK_MS)], [], 0, [], [])
  }

  lemma TooLateHappens(timeoutMs: nat, message: seq<byte>, answer: seq<byte>)
    ensures Leads(Underway(timeoutMs, NewRace(message).(total := 2, done := 2, counted := [[], answer],
                                                        heard := [[], answer])),
                  [Tick(timeoutMs + TICK_MS)] + ([TakeBatchE] + []), TooLate(timeoutMs, message, answer))
  {
    var t := TooLate(timeoutMs, message, answer);
    var s := Underway(timeoutMs, NewRace(message).(total := 2, done := 2, counted := [[], answer],
                                                   heard := [[], answer]));
    var s1 := Apply(s, Tick(timeoutMs + TICK_MS));
    assert Apply(s1, TakeBatchE) == t;
    Begin(s1, TakeBatchE, [], t);
    Begin(s, Tick(timeoutMs + TICK_MS), [TakeBatchE] + [], t);
  }

  /** And that happens too: for every query there is a run in which a valid answer was heard, and the
      loop's next step fails the query at its deadline. */
  lemma DeadlineCanHideAnAnswer(timeoutMs: nat, message: seq<byte>)
    requires IsQuery(message)
    ensures exists events, s ::
              && Leads(Start(timeoutMs), events, s)
              && Enabled(s, ExpireQueriesE) && 0 in s.races && s.races[0].message == message && HeardValid(s, 0)
              && IsOverdue(s, 0)
  {
    var answer := message[2 := 0x80];
    EchoIsValid(message);
    AskedHappens(timeoutMs, message);
    StartedHappens(timeoutMs, message);
    ReturnedHappens(timeoutMs, message, answer);
    TooLateHappens(timeoutMs, message, answer);
    var asked := Underway(timeoutMs, NewRace(message).(total := 2, queued := 2));
    var started := Underway(timeoutMs, NewRace(message).(total := 2, asking := 2));
    var returned := Underway(timeoutMs, NewRace(message).(total := 2, done := 2, counted := [[], answer],
                                                          heard := [[], answer]));
    var s := TooLate(timeoutMs, message, answer);
    RunOn(Start(timeoutMs), Asked(message), asked, [StartTaskE(0)] + ([StartTaskE(0)] + []), started);
    RunOn(started, Returned(answer), returned, [Tick(timeoutMs + TICK_MS)] + ([TakeBatchE] + []), s);
    RunOn(Start(timeoutMs), Asked(message) + ([StartTaskE(0)] + ([StartTaskE(0)] + [])), started,
          Returned(answer) + ([Tick(timeoutMs + TICK_MS)] + ([TakeBatchE] + [])), s);
    assert s.races[0].heard[1] == answer;
    assert s.pending[0] in s.pending;
  }
}
