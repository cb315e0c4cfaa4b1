/** The service stack and its supervisors (src/app/services.cpp:95-216, 473-488, 537-578, 615-737).

    One operation mutex serialises starts, stops and the reaction to a component that went down. A
    stop disarms the supervisor first, and waits for its thread while holding that mutex; the
    thread may by then be about to react, which needs the same mutex. A start whose policy rule is
    refused does not come back from starting the redirection (src/dns/redirector.cpp:139-146,
    172-180), and so keeps the mutex. */
module Supervision {
  import opened Bytes

  datatype Component = Nginx | SniGate | DnsRedirection | DnsProxy

  const ALL: set<Component> := {Nginx, SniGate, DnsRedirection, DnsProxy}

  /** The order the stack comes up in. */
  const ORDER: seq<Component> := [DnsProxy, Nginx, SniGate, DnsRedirection]

  function Launched(n: nat): set<Component>
    requires n <= |ORDER|
  {
    if n == 0 then {} else Launched(n - 1) + {ORDER[n - 1]}
  }

  type SupId = nat

  /** One supervisor thread: in its wait, past it with the handler taken out (`down` is what woke it,
      if a component did), signalled as finished and waiting for the mutex to react, or over. */
  datatype Phase = Watching | Taken(down: Option<Component>) | Reacting(cause: Component) | Gone

  datatype Supervisor = Supervisor(generation: nat, phase: Phase, cancelled: bool, finished: bool)

  datatype Actor = User | Reaction(k: SupId)

  /** What the holder of the mutex is at; `restart` tells a stop inside a start from a plain one, and
      `Stranded` is a start that waits for a lock it holds. */
  datatype Stage =
    | Entered | Disarming(restart: bool) | TearingDown(restart: bool) | Launching(next: nat) | Failing | Stranded

  /** How launching a component goes. Only the redirection, the last one, can have its rule refused. */
  datatype How = Succeeds | Fails | RuleRefused

  datatype Operation = Operation(actor: Actor, start: bool, stage: Stage)

  /** `up` is what is launched and not torn down, `dead` what of it stopped on its own, `outcome`
      what the last start returned. */
  datatype State = State(
    shuttingDown: bool, op: Option<Operation>, generation: nat, armed: Option<SupId>,
    sups: map<SupId, Supervisor>, up: set<Component>, dead: set<Component>, outcome: Option<bool>)

  const IDLE := State(false, None, 0, None, map[], {}, {}, None)

  // ---- Steps of the mutex holder --------------------------------------------------------------

  function Release(s: State, outcome: Option<bool>): State
    requires s.op.Some?
  {
    var done := s.(op := None, outcome := outcome);
    match s.op.value.actor
    case User => done
    case Reaction(k) => if k in s.sups then done.(sups := s.sups[k := s.sups[k].(phase := Gone)]) else done
  }

  function At(s: State, stage: Stage): State
    requires s.op.Some?
  {
    s.(op := Some(s.op.value.(stage := stage)))
  }

  /** The first step of a stop: cancel the armed supervisor, or there is none to wait for. */
  function Disarm(s: State, restart: bool): State
    requires s.op.Some?
  {
    if s.armed.None? then At(s, TearingDown(restart)).(generation := s.generation + 1)
    else
      var k := s.armed.value;
      var cancelled := if k in s.sups then s.(sups := s.sups[k := s.sups[k].(cancelled := true)]) else s;
      At(cancelled, Disarming(restart))
  }

  function Begin(s: State): State
    requires s.op.Some? && s.op.value.stage.Entered?
  {
    if !s.op.value.start then Disarm(s, false)
    else if s.shuttingDown then Release(s, Some(false))
    else if s.up == ALL && s.dead == {} then Release(s, Some(true))
    else if s.up != {} then Disarm(s, true)
    else At(s, Launching(0))
  }

  function Disarmed(s: State): State
    requires s.op.Some? && s.op.value.stage.Disarming?
  {
    At(s, TearingDown(s.op.value.stage.restart)).(armed := None, generation := s.generation + 1)
  }

  function TearDown(s: State): State
    requires s.op.Some? && s.op.value.stage.TearingDown?
  {
    var down := s.(up := {}, dead := {});
    if s.op.value.stage.restart then At(down, Launching(0)) else Release(down, s.outcome)
  }

  /** A check made before anything is launched fails. */
  function Refuse(s: State): State
    requires s.op.Some? && s.op.value.stage == Launching(0)
  {
    Release(s, Some(false))
  }

  /** Bring up the next component, or fail to. */
  function Launch(s: State, how: How): State
    requires s.op.Some? && s.op.value.stage.Launching? && s.op.value.stage.next < |ORDER|
  {
    var n := s.op.value.stage.next;
    match how
    case Succeeds => At(s.(up := s.up + {ORDER[n]}), Launching(n + 1))
    case Fails => At(s, Failing)
    case RuleRefused => At(s, Stranded)
  }

  /** The stop inside a failed start; nothing is armed by then. */
  function RollBack(s: State): State
    requires s.op.Some? && s.op.value.stage.Failing?
  {
    Release(s.(up := {}, dead := {}, generation := s.generation + 1), Some(false))
  }

  /** All four are up: the supervisor `k` is armed for the new generation, if a thread can be had. */
  function Arm(s: State, k: SupId, ok: bool): State
    requires s.op.Some? && s.op.value.stage == Launching(|ORDER|)
  {
    var g := s.generation + 1;
    var armed := if ok then s.(generation := g, armed := Some(k),
                               sups := s.sups[k := Supervisor(g, Watching, false, false)])
                 else s.(generation := g);
    Release(armed, Some(true))
  }

  // ---- Steps of a supervisor thread -----------------------------------------------------------

  /** The wait ends: cancellation wins, and a failed wait names no component. */
  function WakeUp(s: State, k: SupId, down: Option<Component>): State
    requires k in s.sups
  {
    s.(sups := s.sups[k := s.sups[k].(phase := Taken(down))])
  }

  /** Published before the reaction runs. */
  function Finish(s: State, k: SupId): State
    requires k in s.sups && s.sups[k].phase.Taken?
  {
    var down := s.sups[k].phase.down;
    s.(sups := s.sups[k := s.sups[k].(finished := true, phase := if down.Some? then Reacting(down.value) else Gone)])
  }

  /** The mutex is free: the report stands only for the generation it was made of. */
  function React(s: State, k: SupId): State
    requires k in s.sups
  {
    if s.shuttingDown || s.generation != s.sups[k].generation then s.(sups := s.sups[k := s.sups[k].(phase := Gone)])
    else s.(op := Some(Operation(Reaction(k), false, Entered)))
  }

  datatype Event =
    | EnterE(start: bool)
    | BeginE | DisarmedE | TearDownE | RefuseE | LaunchE(how: How) | RollBackE | ArmE(k: SupId, ok: bool)
    | WakeUpE(k: SupId, down: Option<Component>) | FinishE(k: SupId) | ReactE(k: SupId)
    | DiesE(c: Component) | ShutDownE

  predicate Enabled(s: State, e: Event) {
    match e
    case EnterE(start) => s.op.None?
    case BeginE => s.op.Some? && s.op.value.stage.Entered?
    case DisarmedE => s.op.Some? && s.op.value.stage.Disarming? && s.armed.Some? && s.armed.value in s.sups &&
      s.sups[s.armed.value].finished
    case TearDownE => s.op.Some? && s.op.value.stage.TearingDown?
    case RefuseE => s.op.Some? && s.op.value.stage == Launching(0)
    case LaunchE(how) =>
      s.op.Some? && s.op.value.stage.Launching? && s.op.value.stage.next < |ORDER| &&
      (how.RuleRefused? ==> ORDER[s.op.value.stage.next] == DnsRedirection)
    case RollBackE => s.op.Some? && s.op.value.stage.Failing?
    case ArmE(k, ok) => s.op.Some? && s.op.value.stage == Launching(|ORDER|) && k !in s.sups
    case WakeUpE(k, down) => k in s.sups && s.sups[k].phase.Watching? &&
      (down.Some? ==> !s.sups[k].cancelled && down.value in s.dead)
    case FinishE(k) => k in s.sups && s.sups[k].phase.Taken?
    case ReactE(k) => s.op.None? && k in s.sups && s.sups[k].phase.Reacting?
    case DiesE(c) => c in s.up
    case ShutDownE => true
  }

  function Apply(s: State, e: Event): State
    requires Enabled(s, e)
  {
    match e
    case EnterE(start) => s.(op := Some(Operation(User, start, Entered)))
    case BeginE => Begin(s)
    case DisarmedE => Disarmed(s)
    case TearDownE => TearDown(s)
    case RefuseE => Refuse(s)
    case LaunchE(how) => Launch(s, how)
    case RollBackE => RollBack(s)
    case ArmE(k, ok) => Arm(s, k, ok)
    case WakeUpE(k, down) => WakeUp(s, k, down)
    case FinishE(k) => Finish(s, k)
    case ReactE(k) => React(s, k)
    case DiesE(c) => s.(dead := s.dead + {c})
    case ShutDownE => s.(shuttingDown := true)
  }

  predicate IsRun(s: State, events: seq<Event>)
    decreases |events|
  {
    events == [] || (Enabled(s, events[0]) && IsRun(Apply(s, events[0]), events[1..]))
  }

  function After(s: State, events: seq<Event>): State
    requires IsRun(s, events)
    decreases |events|
  {
    if events == [] then s else After(Apply(s, events[0]), events[1..])
  }

  // ---- What every step keeps ------------------------------------------------------------------

  /** The supervisor `k` watches the stack that is up now. */
  predicate Current(s: State, k: SupId) {
    k in s.sups && s.sups[k].generation == s.generation
  }

  predicate SupSound(s: State, k: SupId)
    requires k in s.sups
  {
    && 1 <= s.sups[k].generation <= s.generation
    && (s.sups[k].finished <==> s.sups[k].phase.Reacting? || s.sups[k].phase.Gone?)
    && (s.sups[k].generation == s.generation ==> s.armed == Some(k))
  }

  predicate StageSound(s: State) {
    match s.op
    case None => (s.up == {} || s.up == ALL)
    case Some(op) =>
      && (op.actor.Reaction? ==> !op.start && op.actor.k in s.sups && s.sups[op.actor.k].phase.Reacting?)
      && match op.stage
         case Entered => (s.up == {} || s.up == ALL) && (op.actor.Reaction? ==> Current(s, op.actor.k))
         case Disarming(restart) => restart == op.start && s.up == ALL && s.armed.Some?
                                    && s.armed.value in s.sups && s.sups[s.armed.value].cancelled
                                    && (op.actor.Reaction? ==> s.armed == Some(op.actor.k))
         case TearingDown(restart) => restart == op.start && s.armed.None?
         case Launching(n) => op.start && n <= |ORDER| && s.armed.None? && s.up == Launched(n)
         case Failing => op.start && s.armed.None?
         case Stranded => op.start && s.armed.None? && s.up == Launched(3)
  }

  ghost predicate Sound(s: State) {
    && (forall k :: k in s.sups ==> SupSound(s, k))
    && (s.armed.Some? ==> s.armed.value in s.sups && Current(s, s.armed.value) && s.up == ALL)
    && StageSound(s)
  }

  lemma AllLaunched()
    ensures Launched(4) == ALL
  {
    assert Launched(1) == Launched(0) + {DnsProxy};
    assert Launched(2) == Launched(1) + {Nginx};
    assert Launched(3) == Launched(2) + {SniGate};
  }

  lemma BeginKeeps(s: State)
    requires Sound(s) && Enabled(s, BeginE)
    ensures Sound(Begin(s))
  {
    var t := Begin(s);
    forall k | k in t.sups ensures SupSound(t, k) { assert SupSound(s, k); }
  }

  /** A step of the mutex holder that leaves the supervisors' own progress alone. */
  lemma HolderKeeps(s: State, e: Event)
    requires Sound(s) && Enabled(s, e) && (e.DisarmedE? || e.TearDownE? || e.RefuseE? || e.LaunchE? || e.RollBackE?)
    ensures Sound(Apply(s, e))
  {
    var t := Apply(s, e);
    forall k | k in t.sups ensures SupSound(t, k) { assert SupSound(s, k); }
  }

  lemma ArmKeeps(s: State, k: SupId, ok: bool)
    requires Sound(s) && Enabled(s, ArmE(k, ok))
    ensures Sound(Arm(s, k, ok))
  {
    AllLaunched();
    var t := Arm(s, k, ok);
    forall q | q in t.sups ensures SupSound(t, q) { if q != k { assert SupSound(s, q); } }
  }

  lemma SupervisorKeeps(s: State, e: Event)
    requires Sound(s) && Enabled(s, e) && (e.WakeUpE? || e.FinishE? || e.ReactE?)
    ensures Sound(Apply(s, e))
  {
    var t := Apply(s, e);
    assert SupSound(s, e.k);
    forall q | q in t.sups ensures SupSound(t, q) { assert SupSound(s, q); }
  }

  lemma StepKeeps(s: State, e: Event)
    requires Sound(s) && Enabled(s, e)
    ensures Sound(Apply(s, e))
  {
    if e.BeginE? {
      BeginKeeps(s);
    } else if e.ArmE? {
      ArmKeeps(s, e.k, e.ok);
    } else if e.WakeUpE? || e.FinishE? || e.ReactE? {
      SupervisorKeeps(s, e);
    } else if e.EnterE? || e.DiesE? || e.ShutDownE? {
      var t := Apply(s, e);
      forall k | k in t.sups ensures SupSound(t, k) { assert SupSound(s, k); }
    } else {
      HolderKeeps(s, e);
    }
  }

  lemma {:induction false} RunKeeps(s: State, events: seq<Event>)
    requires Sound(s) && IsRun(s, events)
    ensures Sound(After(s, events))
    decreases |events|
  {
    if events != [] {
      StepKeeps(s, events[0]);
      RunKeeps(Apply(s, events[0]), events[1..]);
    }
  }

  // ---- What it means --------------------------------------------------------------------------

  /** In every run, a report that goes through takes down the stack its own supervisor was armed for,
      still whole and not restarted since; any other report changes nothing but its own thread. */
  lemma ReportsStayInTheirGeneration(events: seq<Event>, k: SupId)
    requires IsRun(IDLE, events) && Enabled(After(IDLE, events), ReactE(k))
    ensures var s := After(IDLE, events);
            var t := React(s, k);
            if !s.shuttingDown && Current(s, k)
            then t.op == Some(Operation(Reaction(k), false, Entered)) && s.armed == Some(k) && s.up == ALL
            else t == s.(sups := s.sups[k := s.sups[k].(phase := Gone)])
  {
    RunKeeps(IDLE, events);
    assert SupSound(After(IDLE, events), k);
  }

  /** How many steps of its own the thread a stop waits for still takes before it lets go. */
  function Pending(sup: Supervisor): nat {
    match sup.phase
    case Watching => 2
    case Taken(_) => 1
    case Reacting(_) => 0
    case Gone => 0
  }

  /** The next step of the thread a stop waits for; none of them needs the mutex. */
  function NextOf(s: State, k: SupId): Event
    requires k in s.sups
  {
    if s.sups[k].phase.Watching? then WakeUpE(k, None) else FinishE(k)
  }

  /** A stop never deadlocks on the supervisor it disarms, even one called from inside that
      supervisor's own reaction: at every point of the wait either the wait is over or the thread
      waited for has a step to take, at most two in all. */
  lemma DisarmCannotDeadlock(events: seq<Event>)
    requires IsRun(IDLE, events)
    requires var s := After(IDLE, events); s.op.Some? && s.op.value.stage.Disarming?
    ensures var s := After(IDLE, events);
            && s.armed.Some? && s.armed.value in s.sups
            && var k := s.armed.value;
               if Pending(s.sups[k]) == 0 then Enabled(s, DisarmedE)
               else && Enabled(s, NextOf(s, k))
                    && var t := Apply(s, NextOf(s, k));
                       t.op == s.op && t.armed == s.armed && k in t.sups && Pending(t.sups[k]) < Pending(s.sups[k])
    ensures var s := After(IDLE, events); s.op.value.actor.Reaction? ==> Enabled(s, DisarmedE)
  {
    RunKeeps(IDLE, events);
    var s := After(IDLE, events);
    assert SupSound(s, s.armed.value);
  }

  /** Outside an operation the stack is up whole or not at all; and a start that ends says true with
      all four launched, or false with none, unless the program is shutting down. */
  lemma StartIsAllOrNothing(events: seq<Event>, e: Event)
    requires IsRun(IDLE, events) && Enabled(After(IDLE, events), e)
    ensures var s := After(IDLE, events);
            var t := Apply(s, e);
            && (t.op.None? ==> t.up == {} || t.up == ALL)
            && (s.op.Some? && s.op.value.start && t.op.None? ==>
                  && t.outcome.Some?
                  && (t.outcome == Some(true) ==> t.up == ALL)
                  && (t.outcome == Some(false) ==> t.up == {} || s.shuttingDown))
  {
    RunKeeps(IDLE, events);
    StepKeeps(After(IDLE, events), e);
    AllLaunched();
  }
  // ---- When an operation can end --------------------------------------------------------------

  ghost predicate CanEnd(s: State) {
    exists events :: IsRun(s, events) && After(s, events).op.None?
  }

  lemma {:induction false} SomeFreshId(ids: set<SupId>) returns (k: SupId)
    ensures forall q :: q in ids ==> q < k
  {
    if ids == {} { return 0; }
    var q :| q in ids;
    var rest := SomeFreshId(ids - {q});
    k := if q < rest then rest else q + 1;
    assert forall p :: p in ids ==> p == q || p in ids - {q};
  }

  /** A step that brings the operation under way closer to its end: its own next one, or one of the
      supervisor it waits for. `k` names a new supervisor. */
  function Onward(s: State, k: SupId): Event
    requires s.op.Some?
  {
    match s.op.value.stage
    case Entered => BeginE
    case Disarming(_) =>
      if s.armed.Some? && s.armed.value in s.sups && !s.sups[s.armed.value].finished then NextOf(s, s.armed.value)
      else DisarmedE
    case TearingDown(_) => TearDownE
    case Launching(n) => if n < |ORDER| then LaunchE(Fails) else ArmE(k, true)
    case Failing => RollBackE
    case Stranded => RollBackE
  }

  /** How far the operation is from its end. */
  function Distance(s: State): nat {
    if s.op.None? then 0
    else match s.op.value.stage
      case Entered => 7
      case Disarming(_) => if s.armed.Some? && s.armed.value in s.sups then 4 + Pending(s.sups[s.armed.value]) else 4
      case TearingDown(_) => 3
      case Launching(_) => 2
      case Failing => 1
      case Stranded => 0
  }

  lemma OnwardGetsCloser(s: State, k: SupId)
    requires Sound(s) && s.op.Some? && !s.op.value.stage.Stranded? && k !in s.sups
    ensures Enabled(s, Onward(s, k))
    ensures var t := Apply(s, Onward(s, k));
            Distance(t) < Distance(s) && (t.op.Some? ==> !t.op.value.stage.Stranded?)
  {
    if s.armed.Some? { assert SupSound(s, s.armed.value); }
  }

  lemma {:induction false} NotStrandedCanEnd(s: State)
    requires Sound(s) && (s.op.Some? ==> !s.op.value.stage.Stranded?)
    ensures CanEnd(s)
    decreases Distance(s)
  {
    if s.op.None? {
      assert IsRun(s, []) && After(s, []).op.None?;
    } else {
      var k := SomeFreshId(s.sups.Keys);
      OnwardGetsCloser(s, k);
      StepKeeps(s, Onward(s, k));
      var t := Apply(s, Onward(s, k));
      NotStrandedCanEnd(t);
      var events :| IsRun(t, events) && After(t, events).op.None?;
      assert ([Onward(s, k)] + events)[1..] == events;
      assert IsRun(s, [Onward(s, k)] + events) && After(s, [Onward(s, k)] + events).op.None?;
    }
  }

  /** The start never ends: the mutex stays held, so that no stop and no reaction can begin, and what
      was launched before the redirection is never taken down. */
  lemma {:induction false} StrandedForGood(s: State, events: seq<Event>)
    requires Sound(s) && s.op.Some? && s.op.value.stage.Stranded? && IsRun(s, events)
    ensures After(s, events).op == s.op && After(s, events).up == {DnsProxy, Nginx, SniGate}
    decreases |events|
  {
    assert Launched(1) == Launched(0) + {DnsProxy};
    assert Launched(2) == Launched(1) + {Nginx};
    if events != [] {
      StepKeeps(s, events[0]);
      StrandedForGood(Apply(s, events[0]), events[1..]);
    }
  }

  predicate RuleNeverRefused(events: seq<Event>) {
    forall i :: 0 <= i < |events| ==> events[i] != LaunchE(RuleRefused)
  }

  lemma {:induction false} StrandedIff(s: State, events: seq<Event>)
    requires Sound(s) && (s.op.Some? ==> !s.op.value.stage.Stranded?) && IsRun(s, events)
    ensures var t := After(s, events);
            RuleNeverRefused(events) <==> t.op.Some? ==> !t.op.value.stage.Stranded?
    decreases |events|
  {
    if events != [] {
      var t := Apply(s, events[0]);
      StepKeeps(s, events[0]);
      if events[0] == LaunchE(RuleRefused) {
        StrandedForGood(t, events[1..]);
      } else {
        StrandedIff(t, events[1..]);
        assert forall i :: 0 <= i < |events| - 1 ==> events[1..][i] == events[i + 1];
      }
    }
  }

  /** In every run, the operation under way, if there is one, can still end, and then leaves the stack
      up whole or not at all, if and only if no launch had its policy rule refused. */
  lemma OperationsEndIff(events: seq<Event>)
    requires IsRun(IDLE, events)
    ensures CanEnd(After(IDLE, events)) <==> RuleNeverRefused(events)
    ensures forall more :: IsRun(After(IDLE, events), more) && After(After(IDLE, events), more).op.None? ==>
              After(After(IDLE, events), more).up == {} || After(After(IDLE, events), more).up == ALL
  {
    var s := After(IDLE, events);
    RunKeeps(IDLE, events);
    StrandedIff(IDLE, events);
    if RuleNeverRefused(events) {
      NotStrandedCanEnd(s);
    } else {
      forall more | IsRun(s, more) ensures After(s, more).op.Some? { StrandedForGood(s, more); }
    }
    forall more | IsRun(s, more) && After(s, more).op.None?
      ensures After(s, more).up == {} || After(s, more).up == ALL {
      RunKeeps(s, more);
    }
  }

  lemma Begun(s: State, e: Event, rest: seq<Event>)
    requires Enabled(s, e) && IsRun(Apply(s, e), rest)
    ensures IsRun(s, [e] + rest) && After(s, [e] + rest) == After(Apply(s, e), rest)
  {
    assert ([e] + rest)[1..] == rest;
  }

  /** A start up to the redirection, which launches `how`. */
  function FirstStart(how: How): seq<Event> {
    [EnterE(true)] +
    ([BeginE] +
     ([LaunchE(Succeeds)] + ([LaunchE(Succeeds)] + ([LaunchE(Succeeds)] + ([LaunchE(how)] + [])))))
  }

  /** And that happens in a first start: the registry refuses the rule, and with the proxy, nginx and
      sni-gate up the start neither returns nor rolls back. */
  lemma RefusedRuleStrands()
    ensures IsRun(IDLE, FirstStart(RuleRefused))
    ensures var s := After(IDLE, FirstStart(RuleRefused));
            && s.op == Some(Operation(User, true, Stranded)) && s.up == {DnsProxy, Nginx, SniGate} && !CanEnd(s)
  {
    var last := [LaunchE(RuleRefused)] + [];
    var s1 := Apply(IDLE, EnterE(true));
    var s2 := Apply(s1, BeginE);
    var s3 := Apply(s2, LaunchE(Succeeds));
    var s4 := Apply(s3, LaunchE(Succeeds));
    var s5 := Apply(s4, LaunchE(Succeeds));
    Begun(s5, LaunchE(RuleRefused), []);
    Begun(s4, LaunchE(Succeeds), last);
    Begun(s3, LaunchE(Succeeds), [LaunchE(Succeeds)] + last);
    Begun(s2, LaunchE(Succeeds), [LaunchE(Succeeds)] + ([LaunchE(Succeeds)] + last));
    Begun(s1, BeginE, [LaunchE(Succeeds)] + ([LaunchE(Succeeds)] + ([LaunchE(Succeeds)] + last)));
    Begun(IDLE, EnterE(true),
          [BeginE] + ([LaunchE(Succeeds)] + ([LaunchE(Succeeds)] + ([LaunchE(Succeeds)] + last))));
    OperationsEndIff(FirstStart(RuleRefused));
    assert FirstStart(RuleRefused)[5] == LaunchE(RuleRefused);
    assert s5.up == {DnsProxy, Nginx, SniGate};
  }
}
