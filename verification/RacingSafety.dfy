/** Over every interleaving of the loop and the workers, a query entered is answered exactly once. */
module RacingSafety {
  import opened Bytes
  import opened Racing

  ghost predicate InPending(pending: seq<Pending>, r: RaceId) {
    exists i :: 0 <= i < |pending| && pending[i].race == r
  }

  /** A pending query is not won and not answered; every race is pending or answered once. */
  ghost predicate Bookkeeping(s: State) {
    && (forall i :: 0 <= i < |s.pending| ==>
          s.pending[i].race in s.races && !s.races[s.pending[i].race].won && s.races[s.pending[i].race].answers == [])
    && (forall i, j :: 0 <= i < j < |s.pending| ==> s.pending[i].race != s.pending[j].race)
    && (forall r :: r in s.races ==>
          |s.races[r].answers| <= 1 && (s.races[r].answers == [] ==> InPending(s.pending, r)))
    && (s.phase.Dispatching? ==> s.phase.race in s.races)
  }

  /** Every submitted task is in exactly one place. */
  predicate TasksAddUp(race: Race) {
    && race.queued + race.asking + race.holding + race.done == race.total
    && |race.heard| == race.done
  }

  ghost predicate AllTasksAddUp(s: State) {
    forall r :: r in s.races ==> TasksAddUp(s.races[r])
  }

  predicate InFlight(race: Race) {
    race.queued + race.asking + race.holding + |race.counted| > 0
  }

  ghost predicate HasCompletion(s: State, r: RaceId) {
    || (exists i :: 0 <= i < |s.completions| && s.completions[i].race == r)
    || (exists i :: 0 <= i < |s.batch| && s.batch[i].race == r)
  }

  /** A pending query still has something coming that will be collected for it. */
  ghost predicate SomethingComing(s: State, r: RaceId)
    requires r in s.races
  {
    || (s.phase == Dispatching(r) && s.races[r].total == 0)
    || InFlight(s.races[r])
    || HasCompletion(s, r)
  }

  ghost predicate NothingLost(s: State) {
    && (forall i :: 0 <= i < |s.pending| ==> s.pending[i].race in s.races && SomethingComing(s, s.pending[i].race))
    && (s.batch != [] ==> s.phase.Draining?)
  }

  /** A valid answer some task of `r` brought is still on its way to the loop. */
  ghost predicate OnItsWay(s: State, r: RaceId, response: seq<byte>)
    requires r in s.races
  {
    response in s.races[r].counted || Completion(r, response) in s.completions || Completion(r, response) in s.batch
  }

  ghost predicate ValidAnswersKept(s: State) {
    forall i, x :: 0 <= i < |s.pending| && s.pending[i].race in s.races && x in s.races[s.pending[i].race].heard &&
                   x != [] && ValidAnswer(x, s.races[s.pending[i].race].message) ==>
      OnItsWay(s, s.pending[i].race, x)
  }

  // ---- Removing one pending query -------------------------------------------------------

  lemma RemovalKeeps(pending: seq<Pending>, i: nat, r: RaceId)
    requires i < |pending| && InPending(pending, r) && pending[i].race != r
    ensures InPending(RemoveAt(pending, i), r)
  {
    var j :| 0 <= j < |pending| && pending[j].race == r;
    var k := if j < i then j else j - 1;
    assert RemoveAt(pending, i)[k] == pending[j];
  }

  /** What settling a query changes: its own race, and nothing any other race's books speak of. */
  lemma SettleFrame(s: State, i: nat, answer: Answer)
    requires i < |s.pending| && s.pending[i].race in s.races
    ensures var r, t := s.pending[i].race, Settle(s, i, answer);
            && t.races == s.races[r := s.races[r].(won := true, answers := s.races[r].answers + [answer])]
            && t.pending == RemoveAt(s.pending, i)
            && t.completions == s.completions && t.batch == s.batch && t.phase == s.phase
            && t.now == s.now && t.timeoutMs == s.timeoutMs && t.nextSession == s.nextSession
  {
  }

  lemma SettleKeepsBooks(s: State, i: nat, answer: Answer)
    requires Bookkeeping(s) && i < |s.pending|
    ensures Bookkeeping(Settle(s, i, answer))
  {
    SettleFrame(s, i, answer);
    var t := Settle(s, i, answer);
    var r := s.pending[i].race;
    forall q | q in t.races
      ensures |t.races[q].answers| <= 1 && (t.races[q].answers == [] ==> InPending(t.pending, q)) {
      if q != r && s.races[q].answers == [] { RemovalKeeps(s.pending, i, q); }
    }
  }

  lemma SettleKeepsRest(s: State, i: nat, answer: Answer)
    requires i < |s.pending| && s.pending[i].race in s.races
    requires forall j :: 0 <= j < |s.pending| && j != i ==> s.pending[j].race != s.pending[i].race
    ensures AllTasksAddUp(s) ==> AllTasksAddUp(Settle(s, i, answer))
    ensures NothingLost(s) ==> NothingLost(Settle(s, i, answer))
    ensures ValidAnswersKept(s) ==> ValidAnswersKept(Settle(s, i, answer))
  {
    SettleFrame(s, i, answer);
    var t := Settle(s, i, answer);
    if NothingLost(s) {
      forall j | 0 <= j < |t.pending| ensures t.pending[j].race in t.races && SomethingComing(t, t.pending[j].race) {
        var k := if j < i then j else j + 1;
        assert t.pending[j] == s.pending[k];
        assert SomethingComing(s, s.pending[k].race);
      }
    }
    if ValidAnswersKept(s) {
      forall j, x | 0 <= j < |t.pending| && t.pending[j].race in t.races && x in t.races[t.pending[j].race].heard &&
                    x != [] && ValidAnswer(x, t.races[t.pending[j].race].message)
        ensures OnItsWay(t, t.pending[j].race, x)
      {
        var k := if j < i then j else j + 1;
        assert t.pending[j] == s.pending[k];
        assert OnItsWay(s, s.pending[k].race, x);
      }
    }
  }

  // ---- Every step ---------------------------------------------------------------------------

  ghost predicate Good(s: State) {
    Bookkeeping(s) && AllTasksAddUp(s) && NothingLost(s) && ValidAnswersKept(s)
  }

  /** Steps that touch only sessions or the clock. */
  lemma BooksUntouched(s: State, t: State)
    requires Good(s)
    requires t.races == s.races && t.pending == s.pending && t.completions == s.completions && t.batch == s.batch
    requires t.phase == s.phase || (!s.phase.Dispatching? && !t.phase.Dispatching? && s.batch == [])
    ensures Good(t)
  {
    forall i | 0 <= i < |t.pending| ensures t.pending[i].race in t.races && SomethingComing(t, t.pending[i].race) {
      assert SomethingComing(s, s.pending[i].race);
    }
    forall i, x | 0 <= i < |t.pending| && x in t.races[t.pending[i].race].heard && x != [] &&
      ValidAnswer(x, t.races[t.pending[i].race].message)
      ensures OnItsWay(t, t.pending[i].race, x)
    {
      assert OnItsWay(s, s.pending[i].race, x);
    }
  }

  /** A new query joins the pending ones. */
  lemma EnterKeeps(s: State, t: State, r: RaceId, message: seq<byte>, p: Pending)
    requires Good(s) && s.phase.Idle? && r !in s.races && p.race == r
    requires t.races == s.races[r := NewRace(message)] && t.pending == s.pending + [p] && t.phase == Dispatching(r)
    requires t.completions == s.completions && t.batch == s.batch
    ensures Good(t)
  {
    forall q | q in t.races
      ensures |t.races[q].answers| <= 1 && (t.races[q].answers == [] ==> InPending(t.pending, q)) {
      if q == r {
        assert t.pending[|s.pending|].race == r;
      } else if s.races[q].answers == [] {
        var i :| 0 <= i < |s.pending| && s.pending[i].race == q;
        assert t.pending[i].race == q;
      }
    }
    forall i | 0 <= i < |t.pending| ensures t.pending[i].race in t.races && SomethingComing(t, t.pending[i].race) {
      if i < |s.pending| { assert SomethingComing(s, s.pending[i].race); }
    }
    forall i, x | 0 <= i < |t.pending| && x in t.races[t.pending[i].race].heard && x != [] &&
      ValidAnswer(x, t.races[t.pending[i].race].message)
      ensures OnItsWay(t, t.pending[i].race, x)
    {
      assert i < |s.pending|;
      assert OnItsWay(s, s.pending[i].race, x);
    }
  }

  lemma RefuseKeeps(s: State, r: RaceId, message: seq<byte>)
    requires Good(s) && r !in s.races
    ensures Good(s.(races := s.races[r := NewRace(message).(answers := [Failure])]))
  {
    var t := s.(races := s.races[r := NewRace(message).(answers := [Failure])]);
    forall i | 0 <= i < |t.pending| ensures t.pending[i].race in t.races && SomethingComing(t, t.pending[i].race) {
      assert SomethingComing(s, s.pending[i].race);
    }
    forall i, x | 0 <= i < |t.pending| && x in t.races[t.pending[i].race].heard && x != [] &&
      ValidAnswer(x, t.races[t.pending[i].race].message)
      ensures OnItsWay(t, t.pending[i].race, x)
    {
      assert OnItsWay(s, s.pending[i].race, x);
    }
  }

  /** A task of one race moves on; `posted` is what the loop is sent by it. */
  lemma TaskMoves(s: State, t: State, r: RaceId, posted: seq<Completion>)
    requires Good(s) && r in s.races
    requires t.races.Keys == s.races.Keys && forall q :: q in s.races && q != r ==> t.races[q] == s.races[q]
    requires t.pending == s.pending && t.phase == s.phase && t.batch == s.batch
    requires t.completions == s.completions + posted
    requires TasksAddUp(t.races[r])
    requires t.races[r].message == s.races[r].message && t.races[r].won == s.races[r].won
    requires t.races[r].answers == s.races[r].answers
    requires InFlight(t.races[r]) || (exists i :: 0 <= i < |posted| && posted[i].race == r) || t.races[r] == s.races[r]
    requires forall x :: x in t.races[r].heard ==>
               (x in s.races[r].heard && x !in s.races[r].counted) || x in t.races[r].counted ||
               Completion(r, x) in posted
    ensures Good(t)
  {
    forall i | 0 <= i < |t.pending| ensures t.pending[i].race in t.races && SomethingComing(t, t.pending[i].race) {
      var q := t.pending[i].race;
      assert SomethingComing(s, q);
      CompletionsGrow(s, t, q, posted);
    }
    forall i, x | 0 <= i < |t.pending| && x in t.races[t.pending[i].race].heard && x != [] &&
      ValidAnswer(x, t.races[t.pending[i].race].message)
      ensures OnItsWay(t, t.pending[i].race, x)
    {
      var q := t.pending[i].race;
      if q != r || (x in s.races[r].heard && x !in s.races[r].counted) { assert OnItsWay(s, q, x); }
    }
  }

  lemma CompletionsGrow(s: State, t: State, r: RaceId, posted: seq<Completion>)
    requires t.batch == s.batch && t.completions == s.completions + posted
    ensures HasCompletion(s, r) ==> HasCompletion(t, r)
    ensures (exists i :: 0 <= i < |posted| && posted[i].race == r) ==> HasCompletion(t, r)
  {
    if i :| 0 <= i < |posted| && posted[i].race == r { assert t.completions[|s.completions| + i].race == r; }
    if i :| 0 <= i < |s.completions| && s.completions[i].race == r { assert t.completions[i].race == r; }
  }

  lemma SubmitKeeps(s: State, accepted: bool)
    requires Good(s) && s.phase.Dispatching? && s.phase.race in s.races
    ensures Good(Submit(s, accepted))
  {
    TaskMoves(s, Submit(s, accepted), s.phase.race, []);
  }

  lemma PostKeeps(s: State, r: RaceId, i: nat)
    requires Good(s) && r in s.races && i < |s.races[r].counted|
    ensures Good(PostTask(s, r, i))
  {
    var t := PostTask(s, r, i);
    var posted := [Completion(r, s.races[r].counted[i])];
    var counted, counted' := s.races[r].counted, t.races[r].counted;
    forall x | x in counted ensures x in counted' || Completion(r, x) in posted {
      var j :| 0 <= j < |counted| && counted[j] == x;
      if j < i { assert counted'[j] == x; } else if j > i { assert counted'[j - 1] == x; }
    }
    assert posted[0].race == r;
    TaskMoves(s, t, r, posted);
  }

  lemma WorkerKeeps(s: State, e: Event)
    requires Good(s) && Enabled(s, e) && (e.StartTaskE? || e.ReturnE? || e.CountE? || e.PostE?)
    ensures Good(Apply(s, e))
  {
    if e.PostE? { PostKeeps(s, e.r, e.i); } else { TaskMoves(s, Apply(s, e), e.r, []); }
  }

  lemma EndDispatchKeeps(s: State)
    requires Good(s) && s.phase.Dispatching? && s.phase.race in s.races
    ensures Good(EndDispatch(s))
  {
    var r, t := s.phase.race, EndDispatch(s);
    var posted := if s.races[r].total == 0 then [Completion(r, [])] else [];
    assert t.completions == s.completions + posted;
    forall i | 0 <= i < |t.pending| ensures t.pending[i].race in t.races && SomethingComing(t, t.pending[i].race) {
      assert SomethingComing(s, s.pending[i].race);
      CompletionsGrow(s, t, t.pending[i].race, posted);
      if s.races[r].total == 0 { assert posted[0].race == r; }
    }
    forall i, x | 0 <= i < |t.pending| && x in t.races[t.pending[i].race].heard && x != [] &&
      ValidAnswer(x, t.races[t.pending[i].race].message)
      ensures OnItsWay(t, t.pending[i].race, x)
    {
      assert OnItsWay(s, s.pending[i].race, x);
    }
  }

  lemma TakeBatchKeeps(s: State)
    requires Good(s) && s.phase.Idle?
    ensures Good(TakeBatch(s))
  {
    var t := TakeBatch(s);
    forall i | 0 <= i < |t.pending| ensures t.pending[i].race in t.races && SomethingComing(t, t.pending[i].race) {
      assert SomethingComing(s, s.pending[i].race);
    }
    forall i, x | 0 <= i < |t.pending| && x in t.races[t.pending[i].race].heard && x != [] &&
      ValidAnswer(x, t.races[t.pending[i].race].message)
      ensures OnItsWay(t, t.pending[i].race, x)
    {
      assert OnItsWay(s, s.pending[i].race, x);
    }
  }

  /** Taking the first completion off the batch loses nothing for any query but its own. */
  lemma CollectRest(s: State, skip: RaceId)
    requires Good(s) && s.batch != [] && skip == s.batch[0].race
    ensures var t := s.(batch := s.batch[1..]);
            && Bookkeeping(t) && AllTasksAddUp(t) && (t.batch != [] ==> t.phase.Draining?)
            && (forall i :: 0 <= i < |t.pending| && t.pending[i].race != skip ==> SomethingComing(t, t.pending[i].race))
            && (forall i, x :: 0 <= i < |t.pending| && x in t.races[t.pending[i].race].heard && x != [] &&
                               ValidAnswer(x, t.races[t.pending[i].race].message) ==>
                  OnItsWay(t, t.pending[i].race, x) || (t.pending[i].race == skip && x == s.batch[0].response))
  {
    var t := s.(batch := s.batch[1..]);
    forall i | 0 <= i < |t.pending| && t.pending[i].race != skip ensures SomethingComing(t, t.pending[i].race) {
      var r := s.pending[i].race;
      assert SomethingComing(s, r);
      if j :| 0 <= j < |s.batch| && s.batch[j].race == r { assert t.batch[j - 1].race == r; }
    }
    forall i, x | 0 <= i < |t.pending| && x in t.races[t.pending[i].race].heard && x != [] &&
                  ValidAnswer(x, t.races[t.pending[i].race].message)
      ensures OnItsWay(t, t.pending[i].race, x) || (t.pending[i].race == skip && x == s.batch[0].response)
    {
      assert OnItsWay(s, s.pending[i].race, x);
      assert s.batch == [s.batch[0]] + t.batch;
    }
  }

  /** The steps of Settle need only the parts of Good that a half-collected state has. */
  lemma SettleAfterCollect(s: State, i: nat, answer: Answer)
    requires Good(s) && s.batch != [] && i < |s.pending| && s.pending[i].race == s.batch[0].race
    ensures Good(Settle(s.(batch := s.batch[1..]), i, answer))
  {
    var c := s.batch[0];
    CollectRest(s, c.race);
    var t := s.(batch := s.batch[1..]);
    SettleKeepsBooks(t, i, answer);
    SettleFrame(t, i, answer);
    var u := Settle(t, i, answer);
    forall j | 0 <= j < |u.pending| ensures u.pending[j].race in u.races && SomethingComing(u, u.pending[j].race) {
      var k := if j < i then j else j + 1;
      assert u.pending[j] == t.pending[k];
      assert SomethingComing(t, t.pending[k].race);
    }
    forall j, x | 0 <= j < |u.pending| && x in u.races[u.pending[j].race].heard && x != [] &&
      ValidAnswer(x, u.races[u.pending[j].race].message)
      ensures OnItsWay(u, u.pending[j].race, x)
    {
      var k := if j < i then j else j + 1;
      assert u.pending[j] == t.pending[k];
      assert OnItsWay(t, t.pending[k].race, x);
    }
  }

  lemma CollectKeeps(s: State)
    requires Good(s) && s.phase.Draining? && s.batch != []
    ensures Good(Collect(s))
  {
    var c, t := s.batch[0], s.(batch := s.batch[1..]);
    CollectRest(s, c.race);
    var i := FindPending(s.pending, c.race, 0);
    if i < |s.pending| {
      var race := s.races[c.race];
      if c.response != [] && ValidAnswer(c.response, race.message) {
        SettleAfterCollect(s, i, Reply(c.response));
      } else if race.done >= race.total {
        SettleAfterCollect(s, i, Failure);
      } else {
        assert InFlight(race);
        assert Good(t);
      }
    }
  }

  lemma {:induction false} ExpireKeeps(s: State, i: nat)
    requires Good(s) && i <= |s.pending|
    ensures forall p :: p in s.pending ==> p.race in s.races
    ensures Good(ExpireQueries(s, i))
    decreases |s.pending| - i
  {
    assert forall p :: p in s.pending ==> p.race in s.races;
    if i < |s.pending| {
      if s.now < s.pending[i].deadline {
        ExpireKeeps(s, i + 1);
      } else {
        SettleKeepsBooks(s, i, Failure);
        SettleKeepsRest(s, i, Failure);
        BooksUntouched(Settle(s, i, Failure), ExpireOne(s, i));
        ExpireKeeps(ExpireOne(s, i), i);
      }
    }
  }

  lemma {:induction false} ExpireSessionsBooks(s: State, i: nat)
    requires i <= |s.sessions|
    ensures var t := ExpireSessions(s, i);
            t.races == s.races && t.pending == s.pending && t.completions == s.completions && t.batch == s.batch &&
              t.phase == s.phase
    decreases |s.sessions| - i
  {
    if i < |s.sessions| {
      if s.now < s.sessions[i].deadline { ExpireSessionsBooks(s, i + 1); } else { ExpireSessionsBooks(Drop(s, i), i); }
    }
  }

  lemma ServiceKeeps(s: State, i: nat, r: RaceId)
    requires Good(s) && s.phase.Idle? && i < |s.sessions| && r !in s.races
    ensures Good(Service(s, i, r))
  {
    var t, u := s.sessions[i], Service(s, i, r);
    var k := FirstQuery(t.inbox, 0);
    if t.busy || k == |t.inbox| {
      BooksUntouched(s, u);
    } else {
      EnterKeeps(s, u, r, t.inbox[k], Pending(r, Tcp(t.id), s.now + s.timeoutMs + TICK_MS));
    }
  }

  lemma ReadyKeeps(s: State, u: State, i: nat, r: RaceId)
    requires Good(s) && s.phase.Idle? && i < |s.sessions| && r !in s.races
    requires (exists messages :: u == Buffered(s, i, messages)) || u == Flushed(s, i)
    ensures Good(Service(u, i, r))
  {
    BooksUntouched(s, u);
    ServiceKeeps(u, i, r);
  }

  lemma SessionStepKeeps(s: State, e: Event)
    requires Good(s) && Enabled(s, e) && (e.AcceptE? || e.ReceiveE? || e.WrittenE? || e.DropE? || e.Tick? || e.StopE?)
    ensures Good(Apply(s, e))
  {
    if e.ReceiveE? {
      ReadyKeeps(s, Buffered(s, e.session, e.messages), e.session, e.r);
    } else if e.WrittenE? {
      ReadyKeeps(s, Flushed(s, e.session), e.session, e.r);
    } else {
      BooksUntouched(s, Apply(s, e));
    }
  }

  lemma LoopStepKeeps(s: State, e: Event)
    requires Good(s) && Enabled(s, e)
    requires e.ArriveE? || e.SubmitE? || e.EndDispatchE? || e.TakeBatchE? || e.CollectE?
    ensures Good(Apply(s, e))
  {
    if e.ArriveE? {
      if |s.pending| >= MAX_PENDING_QUERIES { RefuseKeeps(s, e.r, e.message); }
      else { EnterKeeps(s, Apply(s, e), e.r, e.message, Pending(e.r, Udp, s.now + s.timeoutMs + TICK_MS)); }
    } else if e.SubmitE? {
      SubmitKeeps(s, e.accepted);
    } else if e.EndDispatchE? {
      EndDispatchKeeps(s);
    } else if e.TakeBatchE? {
      TakeBatchKeeps(s);
    } else {
      CollectKeeps(s);
    }
  }

  lemma ExpiryKeeps(s: State, e: Event)
    requires Good(s) && Enabled(s, e) && (e.ExpireQueriesE? || e.ExpireSessionsE?)
    ensures Good(Apply(s, e))
  {
    if e.ExpireQueriesE? {
      ExpireKeeps(s, 0);
      ExpirePhase(s, 0);
      BooksUntouched(ExpireQueries(s, 0), Apply(s, e));
    } else {
      ExpireSessionsBooks(s, 0);
      BooksUntouched(s, Apply(s, e));
    }
  }

  /** Every step keeps the books. */
  lemma StepKeeps(s: State, e: Event)
    requires Good(s) && Enabled(s, e)
    ensures Good(Apply(s, e))
  {
    if e.ExpireQueriesE? || e.ExpireSessionsE? {
      ExpiryKeeps(s, e);
    } else if e.StartTaskE? || e.ReturnE? || e.CountE? || e.PostE? {
      WorkerKeeps(s, e);
    } else if e.AcceptE? || e.ReceiveE? || e.WrittenE? || e.DropE? || e.Tick? || e.StopE? {
      SessionStepKeeps(s, e);
    } else {
      LoopStepKeeps(s, e);
    }
  }

  lemma {:induction false} ExpirePhase(s: State, i: nat)
    requires i <= |s.pending| && forall p :: p in s.pending ==> p.race in s.races
    ensures ExpireQueries(s, i).phase == s.phase && ExpireQueries(s, i).batch == s.batch
    decreases |s.pending| - i
  {
    if i < |s.pending| {
      if s.now < s.pending[i].deadline { ExpirePhase(s, i + 1); } else { ExpirePhase(ExpireOne(s, i), i); }
    }
  }

  lemma {:induction false} RunKeeps(s: State, events: seq<Event>)
    requires Good(s) && IsRun(s, events)
    ensures Good(After(s, events))
    decreases |events|
  {
    if events != [] {
      StepKeeps(s, events[0]);
      RunKeeps(Apply(s, events[0]), events[1..]);
    }
  }

  // ---- What it means ------------------------------------------------------------------------

  /** In every run, a query that was entered is still pending and unanswered, or has been handed
      exactly one answer; and while it is pending something is coming that will settle it. */
  lemma AnsweredExactlyOnce(timeoutMs: nat, events: seq<Event>, r: RaceId)
    requires IsRun(Start(timeoutMs), events) && r in After(Start(timeoutMs), events).races
    ensures var s := After(Start(timeoutMs), events);
            && |s.races[r].answers| == (if InPending(s.pending, r) then 0 else 1)
            && (InPending(s.pending, r) ==> !s.races[r].won && SomethingComing(s, r))
  {
    assert Good(Start(timeoutMs));
    RunKeeps(Start(timeoutMs), events);
    var s := After(Start(timeoutMs), events);
    if InPending(s.pending, r) {
      var i :| 0 <= i < |s.pending| && s.pending[i].race == r;
      assert SomethingComing(s, s.pending[i].race);
    }
  }
}
