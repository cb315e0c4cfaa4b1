/** What clients are handed (src/dns/dns_proxy.cpp:536-556, 1084-1112), in every run: only what an upstream
    of their own race said and what answers their query, byte for byte; and a valid answer collected for
    a pending query is the one it gets. */
module RacingAnswers {
  import opened Bytes
  import opened NameCodec
  import opened Racing
  import opened RacingSafety
  import opened RacingFailure

  /** The response repeats the query's id and question and is an untruncated response to a standard
      query, in the bytes of section 4.1.1 of RFC 1035. */
  ghost predicate Matches(response: seq<byte>, message: seq<byte>) {
    && IsQuery(message) && |response| >= 12
    && response[..2] == message[..2]
    && var e := QueryOf(message).questionEnd;
       && e <= |response| && e <= |message| && response[12..e] == message[12..e]
       && response[2] / 128 == 1 && response[2] / 8 % 16 == 0 && response[2] / 2 % 2 == 0
  }

  lemma ValidMatches(response: seq<byte>, message: seq<byte>)
    ensures ValidAnswer(response, message) <==> Matches(response, message)
  {
    if ValidAnswer(response, message) || Matches(response, message) {
      QuestionsAreLong(message);
      assert response[..2] == [response[0], response[1]] && message[..2] == [message[0], message[1]];
    }
  }

  lemma QuestionsAreLong(message: seq<byte>)
    requires IsQuery(message)
    ensures 12 <= QueryOf(message).questionEnd <= |message|
  {
  }

  // ---- In every run ---------------------------------------------------------------------------

  ghost predicate AnswerFits(race: Race, answer: Answer) {
    answer.Reply? ==> answer.response in race.heard && Matches(answer.response, race.message)
  }

  ghost predicate AnswersFit(s: State) {
    forall r, a :: r in s.races && a in s.races[r].answers ==> AnswerFits(s.races[r], a)
  }

  /** Races keep their messages, and what they heard; answers are added only where they fit. */
  ghost predicate RacesFit(before: map<RaceId, Race>, after: map<RaceId, Race>) {
    forall r, a :: r in after && a in after[r].answers ==>
      || AnswerFits(after[r], a)
      || (r in before && a in before[r].answers && after[r].message == before[r].message &&
          forall x :: x in before[r].heard ==> x in after[r].heard)
  }

  lemma FitStays(s: State, t: State)
    requires AnswersFit(s) && RacesFit(s.races, t.races)
    ensures AnswersFit(t)
  {
  }

  lemma SettleFits(s: State, i: nat, answer: Answer)
    requires AnswersFit(s) && i < |s.pending| && s.pending[i].race in s.races
    requires AnswerFits(s.races[s.pending[i].race], answer)
    ensures AnswersFit(Settle(s, i, answer))
  {
    SettleFrame(s, i, answer);
    FitStays(s, Settle(s, i, answer));
  }

  lemma {:induction false} ExpireFits(s: State, i: nat)
    requires AnswersFit(s) && i <= |s.pending| && forall p :: p in s.pending ==> p.race in s.races
    ensures AnswersFit(ExpireQueries(s, i))
    decreases |s.pending| - i
  {
    if i < |s.pending| {
      if s.now < s.pending[i].deadline {
        ExpireFits(s, i + 1);
      } else {
        SettleFits(s, i, Failure);
        assert AnswersFit(ExpireOne(s, i));
        ExpireFits(ExpireOne(s, i), i);
      }
    }
  }

  lemma CollectFits(s: State)
    requires AnswersFit(s) && NothingInvented(s) && s.batch != []
    ensures AnswersFit(Collect(s))
  {
    var c, rest := s.batch[0], s.(batch := s.batch[1..]);
    var i := FindPending(s.pending, c.race, 0);
    if i < |s.pending| && c.race in s.races {
      ValidMatches(c.response, s.races[c.race].message);
      SettleFits(rest, i, Failure);
      assert c in s.batch;
      if c.response != [] && ValidAnswer(c.response, s.races[c.race].message) {
        SettleFits(rest, i, Reply(c.response));
      }
    }
  }

  lemma ServiceFits(s: State, i: nat, r: RaceId)
    requires AnswersFit(s) && i < |s.sessions| && r !in s.races
    ensures AnswersFit(Service(s, i, r))
  {
    FitStays(s, Service(s, i, r));
  }

  lemma WorkerFits(s: State, e: Event)
    requires AnswersFit(s) && Enabled(s, e) && (e.StartTaskE? || e.ReturnE? || e.CountE? || e.PostE?)
    ensures AnswersFit(Apply(s, e))
  {
    FitStays(s, Apply(s, e));
  }

  lemma StepFits(s: State, e: Event)
    requires AnswersFit(s) && NothingInvented(s) && Enabled(s, e)
    ensures AnswersFit(Apply(s, e))
  {
    if e.ExpireQueriesE? {
      ExpireFits(s, 0);
    } else if e.ExpireSessionsE? {
      ExpireSessionsBooks(s, 0);
    } else if e.CollectE? {
      CollectFits(s);
    } else if e.ReceiveE? {
      ServiceFits(Buffered(s, e.session, e.messages), e.session, e.r);
    } else if e.WrittenE? {
      ServiceFits(Flushed(s, e.session), e.session, e.r);
    } else if e.StartTaskE? || e.ReturnE? || e.CountE? || e.PostE? {
      WorkerFits(s, e);
    } else {
      FitStays(s, Apply(s, e));
    }
  }

  lemma {:induction false} RunFits(s: State, events: seq<Event>)
    requires AnswersFit(s) && NothingInvented(s) && IsRun(s, events)
    ensures AnswersFit(After(s, events))
    decreases |events|
  {
    if events != [] {
      StepFits(s, events[0]);
      StepInventsNothing(s, events[0]);
      RunFits(Apply(s, events[0]), events[1..]);
    }
  }

  /** In every run, an answer handed over that is not a failure was heard from an upstream of that very
      race, and repeats the query's id and question. */
  lemma HandedOverIsValid(timeoutMs: nat, events: seq<Event>, r: RaceId, x: seq<byte>)
    requires IsRun(Start(timeoutMs), events) && r in After(Start(timeoutMs), events).races
    requires Reply(x) in After(Start(timeoutMs), events).races[r].answers
    ensures var race := After(Start(timeoutMs), events).races[r];
            && x in race.heard && Matches(x, race.message)
  {
    RunFits(Start(timeoutMs), events);
    assert AnswerFits(After(Start(timeoutMs), events).races[r], Reply(x));
  }

  /** And the first valid answer collected for a pending query is what it is given. */
  lemma FirstValidWins(timeoutMs: nat, events: seq<Event>)
    requires IsRun(Start(timeoutMs), events) && Enabled(After(Start(timeoutMs), events), CollectE)
    ensures var s := After(Start(timeoutMs), events);
            var c := s.batch[0];
            InPending(s.pending, c.race) ==>
              && c.race in s.races && c.race in Collect(s).races
              && (Matches(c.response, s.races[c.race].message) ==>
                    Collect(s).races[c.race].answers == [Reply(c.response)] && !InPending(Collect(s).pending, c.race))
  {
    assert Good(Start(timeoutMs));
    RunKeeps(Start(timeoutMs), events);
    var s := After(Start(timeoutMs), events);
    if InPending(s.pending, s.batch[0].race) { ValidIsGiven(s); }
  }

  lemma ValidIsGiven(s: State)
    requires Good(s) && s.batch != [] && InPending(s.pending, s.batch[0].race)
    ensures var c := s.batch[0];
            && c.race in s.races && c.race in Collect(s).races
            && (Matches(c.response, s.races[c.race].message) ==>
                  Collect(s).races[c.race].answers == [Reply(c.response)] && !InPending(Collect(s).pending, c.race))
  {
    var c, rest := s.batch[0], s.(batch := s.batch[1..]);
    var i := FindPending(s.pending, c.race, 0);
    ValidMatches(c.response, s.races[c.race].message);
    SettleFrame(rest, i, Reply(c.response));
    SettleFrame(rest, i, Failure);
    assert [] + [Reply(c.response)] == [Reply(c.response)];
  }

  // ---- The query that was asked ---------------------------------------------------------------

  ghost predicate MessagesStay(before: map<RaceId, Race>, after: map<RaceId, Race>) {
    forall r :: r in before ==> r in after && after[r].message == before[r].message
  }

  lemma {:induction false} ExpireKeepsMessages(s: State, i: nat)
    requires i <= |s.pending| && forall p :: p in s.pending ==> p.race in s.races
    ensures MessagesStay(s.races, ExpireQueries(s, i).races)
    decreases |s.pending| - i
  {
    if i < |s.pending| {
      if s.now < s.pending[i].deadline {
        ExpireKeepsMessages(s, i + 1);
      } else {
        ExpireKeepsMessages(ExpireOne(s, i), i);
      }
    }
  }

  lemma StepKeepsMessages(s: State, e: Event)
    requires Enabled(s, e)
    ensures MessagesStay(s.races, Apply(s, e).races)
  {
    if e.ExpireQueriesE? {
      ExpireKeepsMessages(s, 0);
    } else if e.ExpireSessionsE? {
      ExpireSessionsBooks(s, 0);
    } else if e.CollectE? {
      CollectKeepsMessages(s);
    } else if e.ReceiveE? || e.WrittenE? {
      ServiceKeepsMessages(s, e);
    }
  }

  lemma CollectKeepsMessages(s: State)
    requires s.batch != []
    ensures MessagesStay(s.races, Collect(s).races)
  {
    var rest := s.(batch := s.batch[1..]);
    var i := FindPending(s.pending, s.batch[0].race, 0);
    if i < |s.pending| && s.batch[0].race in s.races {
      SettleFrame(rest, i, Reply(s.batch[0].response));
      SettleFrame(rest, i, Failure);
    }
  }

  lemma ServiceKeepsMessages(s: State, e: Event)
    requires Enabled(s, e) && (e.ReceiveE? || e.WrittenE?)
    ensures MessagesStay(s.races, Apply(s, e).races)
  {
  }

  lemma {:induction false} RunKeepsMessages(s: State, events: seq<Event>)
    requires IsRun(s, events)
    ensures MessagesStay(s.races, After(s, events).races)
    decreases |events|
  {
    if events != [] {
      StepKeepsMessages(s, events[0]);
      RunKeepsMessages(Apply(s, events[0]), events[1..]);
    }
  }

  /** A race stands for the query that came, to the end of the run. */
  lemma QueryIsKept(s: State, r: RaceId, message: seq<byte>, events: seq<Event>)
    requires Enabled(s, ArriveE(r, message)) && IsRun(Apply(s, ArriveE(r, message)), events)
    ensures var t := After(Apply(s, ArriveE(r, message)), events);
            r in t.races && t.races[r].message == message
  {
    RunKeepsMessages(Apply(s, ArriveE(r, message)), events);
  }
}
