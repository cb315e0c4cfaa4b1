/** The test that would not hide an answer (src/dns/dns_proxy.cpp:1107): the tasks the loop has heard
    from, counted by the loop itself, instead of the tasks that say they are done. */
module RacingCount {
  import opened Racing
  import opened RacingSafety
  import opened RacingFailure

  function CountOf(completions: seq<Completion>, r: RaceId): nat {
    if completions == [] then 0 else (if completions[0].race == r then 1 else 0) + CountOf(completions[1..], r)
  }

  lemma {:induction false} CountConcat(a: seq<Completion>, b: seq<Completion>, r: RaceId)
    ensures CountOf(a + b, r) == CountOf(a, r) + CountOf(b, r)
  {
    if a == [] {
      assert a + b == b;
    } else {
      assert (a + b)[1..] == a[1..] + b;
      CountConcat(a[1..], b, r);
    }
  }

  lemma {:induction false} CountedIsThere(completions: seq<Completion>, r: RaceId)
    ensures CountOf(completions, r) == 0 <==> forall c :: c in completions ==> c.race != r
  {
    if completions != [] {
      CountedIsThere(completions[1..], r);
      assert completions == [completions[0]] + completions[1..];
    }
  }

  /** How many completions of `r` the loop has taken off its batches in a run. */
  ghost function Collected(s: State, events: seq<Event>, r: RaceId): nat
    requires IsRun(s, events)
    decreases |events|
  {
    if events == [] then 0
    else (if events[0].CollectE? && s.batch[0].race == r then 1 else 0) + Collected(Apply(s, events[0]), events[1..], r)
  }

  /** What counted tasks of `r` brought and the loop has not taken yet. */
  function Outstanding(s: State, r: RaceId): nat
    requires r in s.races
  {
    |s.races[r].counted| + CountOf(s.completions, r) + CountOf(s.batch, r)
  }

  /** Every counted task's completion is outstanding or taken. A race no task was accepted for has one
      completion of its own, and never gets a task. */
  ghost predicate Balanced(s: State, r: RaceId, taken: nat) {
    if r !in s.races then CountOf(s.completions, r) == 0 && CountOf(s.batch, r) == 0 && taken == 0
    else s.races[r].total > 0 || s.phase == Dispatching(r) ==> Outstanding(s, r) + taken == s.races[r].done
  }

  /** Steps that leave the tasks, the completions and the batch alone. */
  lemma SameBalance(s: State, t: State, r: RaceId, taken: nat)
    requires Balanced(s, r, taken) && t.completions == s.completions && t.batch == s.batch
    requires r in t.races && r !in s.races ==> t.races[r].counted == [] && t.races[r].done == 0
    requires r in s.races ==> r in t.races && t.races[r].total == s.races[r].total &&
                              t.races[r].done == s.races[r].done && t.races[r].counted == s.races[r].counted
    requires t.phase == s.phase || !t.phase.Dispatching? || t.phase.race !in s.races
    ensures Balanced(t, r, taken)
  {
  }

  lemma {:induction false} ExpiryKeepsTasks(s: State, i: nat, r: RaceId)
    requires i <= |s.pending| && (forall p :: p in s.pending ==> p.race in s.races)
    ensures var t := ExpireQueries(s, i);
            && t.completions == s.completions && t.batch == s.batch && t.phase == s.phase
            && t.races.Keys == s.races.Keys
            && (r in s.races ==> t.races[r].total == s.races[r].total && t.races[r].done == s.races[r].done &&
                                 t.races[r].counted == s.races[r].counted)
    decreases |s.pending| - i
  {
    if i < |s.pending| {
      if s.now < s.pending[i].deadline {
        ExpiryKeepsTasks(s, i + 1, r);
      } else {
        SettleFrame(s, i, Failure);
        ExpiryKeepsTasks(ExpireOne(s, i), i, r);
      }
    }
  }

  lemma CollectKeepsTasks(s: State, r: RaceId)
    requires s.batch != []
    ensures var t := Collect(s);
            && t.completions == s.completions && t.batch == s.batch[1..] && t.phase == s.phase
            && t.races.Keys == s.races.Keys
            && (r in s.races ==> t.races[r].total == s.races[r].total && t.races[r].done == s.races[r].done &&
                                 t.races[r].counted == s.races[r].counted)
  {
    var rest, i := s.(batch := s.batch[1..]), FindPending(s.pending, s.batch[0].race, 0);
    if i < |s.pending| && s.batch[0].race in s.races {
      SettleFrame(rest, i, Reply(s.batch[0].response));
      SettleFrame(rest, i, Failure);
    }
  }

  lemma WorkerBalances(s: State, e: Event, r: RaceId, taken: nat)
    requires Balanced(s, r, taken) && Enabled(s, e) && (e.StartTaskE? || e.ReturnE? || e.CountE? || e.PostE?)
    ensures Balanced(Apply(s, e), r, taken)
  {
    if e.PostE? {
      var posted := Completion(e.r, s.races[e.r].counted[e.i]);
      CountConcat(s.completions, [posted], r);
      assert [posted][1..] == [];
    }
  }

  lemma DispatchBalances(s: State, e: Event, r: RaceId, taken: nat)
    requires Balanced(s, r, taken) && Enabled(s, e) && (e.SubmitE? || e.EndDispatchE? || e.TakeBatchE?)
    requires s.batch != [] ==> s.phase.Draining?
    ensures Balanced(Apply(s, e), r, taken)
  {
    if e.EndDispatchE? && s.races[s.phase.race].total == 0 {
      var posted := Completion(s.phase.race, []);
      CountConcat(s.completions, [posted], r);
      assert [posted][1..] == [];
    }
  }

  lemma CollectBalances(s: State, r: RaceId, taken: nat)
    requires Balanced(s, r, taken) && NothingInvented(s) && s.batch != []
    ensures Balanced(Collect(s), r, taken + if s.batch[0].race == r then 1 else 0)
  {
    CollectKeepsTasks(s, r);
    assert s.batch[0] in s.batch;
  }

  lemma ServiceBalances(s: State, u: State, i: nat, q: RaceId, r: RaceId, taken: nat)
    requires Balanced(s, r, taken) && i < |s.sessions| && q !in s.races
    requires (exists messages :: u == Buffered(s, i, messages)) || u == Flushed(s, i)
    ensures Balanced(Service(u, i, q), r, taken)
  {
    SameBalance(s, Service(u, i, q), r, taken);
  }

  lemma OtherBalances(s: State, e: Event, r: RaceId, taken: nat)
    requires Balanced(s, r, taken) && Enabled(s, e)
    requires e.Tick? || e.ArriveE? || e.AcceptE? || e.DropE? || e.StopE? || e.ExpireQueriesE? || e.ExpireSessionsE?
    ensures Balanced(Apply(s, e), r, taken)
  {
    if e.ExpireQueriesE? { ExpiryKeepsTasks(s, 0, r); }
    else if e.ExpireSessionsE? { ExpireSessionsBooks(s, 0); }
    SameBalance(s, Apply(s, e), r, taken);
  }

  lemma StepBalances(s: State, e: Event, r: RaceId, taken: nat)
    requires Good(s) && NothingInvented(s) && Balanced(s, r, taken) && Enabled(s, e)
    ensures Balanced(Apply(s, e), r, taken + if e.CollectE? && s.batch[0].race == r then 1 else 0)
  {
    if e.CollectE? {
      CollectBalances(s, r, taken);
    } else if e.StartTaskE? || e.ReturnE? || e.CountE? || e.PostE? {
      WorkerBalances(s, e, r, taken);
    } else if e.SubmitE? || e.EndDispatchE? || e.TakeBatchE? {
      DispatchBalances(s, e, r, taken);
    } else if e.ReceiveE? {
      ServiceBalances(s, Buffered(s, e.session, e.messages), e.session, e.r, r, taken);
    } else if e.WrittenE? {
      ServiceBalances(s, Flushed(s, e.session), e.session, e.r, r, taken);
    } else {
      OtherBalances(s, e, r, taken);
    }
  }

  lemma {:induction false} RunBalances(s: State, events: seq<Event>, r: RaceId, taken: nat)
    requires Good(s) && NothingInvented(s) && Balanced(s, r, taken) && IsRun(s, events)
    ensures Balanced(After(s, events), r, taken + Collected(s, events, r))
    decreases |events|
  {
    if events != [] {
      var next := taken + if events[0].CollectE? && s.batch[0].race == r then 1 else 0;
      StepBalances(s, events[0], r, taken);
      StepKeeps(s, events[0]);
      StepInventsNothing(s, events[0]);
      RunBalances(Apply(s, events[0]), events[1..], r, next);
    }
  }

  /** With every other completion taken, nothing waits behind the one at hand. */
  lemma LastLeavesNothing(s: State, r: RaceId)
    requires s.batch != [] && s.batch[0].race == r && r in s.races && Outstanding(s, r) <= 1
    ensures !Waits(s, r, s.batch[1..])
  {
    CountedIsThere(s.batch[1..], r);
    CountedIsThere(s.completions, r);
    assert CountOf(s.batch, r) == 1 + CountOf(s.batch[1..], r);
    forall x ensures Completion(r, x) !in s.completions && Completion(r, x) !in s.batch[1..] {
      assert Completion(r, x).race == r;
    }
  }

  /** Were the client told of a failure only at the race's last completion to be collected, as many as
      tasks were started, no failure from a completion would hide an answer: in every run, the
      completion at hand being the last, a failure means that no upstream answered. */
  lemma FailureAtTheLastIsRight(timeoutMs: nat, events: seq<Event>, r: RaceId)
    requires IsRun(Start(timeoutMs), events)
    requires var s := After(Start(timeoutMs), events);
             && Enabled(s, CollectE) && s.batch[0].race == r && r in s.races && s.races[r].answers == []
             && Collected(Start(timeoutMs), events, r) + 1 >= s.races[r].total
    ensures var s := After(Start(timeoutMs), events);
            r in Collect(s).races && (Collect(s).races[r].answers == [Failure] ==> !HeardValid(s, r))
  {
    var s := After(Start(timeoutMs), events);
    assert Good(Start(timeoutMs));
    RunKeeps(Start(timeoutMs), events);
    RunBalances(Start(timeoutMs), events, r, 0);
    CollectFails(s, r);
    assert TasksAddUp(s.races[r]);
    if s.races[r].total > 0 {
      LastLeavesNothing(s, r);
      NothingWaitingHidesNothing(timeoutMs, events, r);
    }
  }
}
