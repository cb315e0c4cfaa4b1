/** A stack comes up, is watched, and is taken down when a component of it dies
    (src/app/services.cpp:95-216, 537-578, 615-737): the runs there are, beside what no run does. */
module SupervisionSteps {
  import opened Bytes
  import opened Supervision

  // ---- Coming up ------------------------------------------------------------------------------

  /** A first start in which everything launches. */
  function WholeStart(k: SupId): seq<Event> {
    [EnterE(true)] +
    ([BeginE] +
     ([LaunchE(Succeeds)] +
      ([LaunchE(Succeeds)] + ([LaunchE(Succeeds)] + ([LaunchE(Succeeds)] + ([ArmE(k, true)] + []))))))
  }

  /** The whole stack under the supervisor `k`. */
  function Watched(k: SupId): State {
    State(false, None, 1, Some(k), map[k := Supervisor(1, Watching, false, false)], ALL, {}, Some(true))
  }

  lemma WholeStartHappens(k: SupId)
    ensures IsRun(IDLE, WholeStart(k)) && After(IDLE, WholeStart(k)) == Watched(k)
  {
    var s1 := Apply(IDLE, EnterE(true));
    var s2 := Apply(s1, BeginE);
    var s3 := Apply(s2, LaunchE(Succeeds));
    var s4 := Apply(s3, LaunchE(Succeeds));
    var s5 := Apply(s4, LaunchE(Succeeds));
    var s6 := Apply(s5, LaunchE(Succeeds));
    assert s6.up == ALL;
    var last := [ArmE(k, true)] + [];
    Begun(s6, ArmE(k, true), []);
    Begun(s5, LaunchE(Succeeds), last);
    Begun(s4, LaunchE(Succeeds), [LaunchE(Succeeds)] + last);
    Begun(s3, LaunchE(Succeeds), [LaunchE(Succeeds)] + ([LaunchE(Succeeds)] + last));
    Begun(s2, LaunchE(Succeeds), [LaunchE(Succeeds)] + ([LaunchE(Succeeds)] + ([LaunchE(Succeeds)] + last)));
    Begun(s1, BeginE,
      [LaunchE(Succeeds)] + ([LaunchE(Succeeds)] + ([LaunchE(Succeeds)] + ([LaunchE(Succeeds)] + last))));
    Begun(IDLE, EnterE(true), [BeginE] + ([LaunchE(Succeeds)] + ([LaunchE(Succeeds)] +
                                          ([LaunchE(Succeeds)] + ([LaunchE(Succeeds)] + last)))));
  }

  /** A start with everything up and nothing dead says true and changes nothing; with something dead it
      stops what is left first; and while the program shuts down it says false. */
  lemma SecondStart(s: State)
    requires s.op.None? && s.up == ALL
    ensures var t := Apply(Apply(s, EnterE(true)), BeginE);
            if s.shuttingDown then t == s.(outcome := Some(false))
            else if s.dead == {} then t == s.(outcome := Some(true))
            else t.op.Some? && t.op.value.start && t.up == ALL &&
                 (t.op.value.stage == Disarming(true) || t.op.value.stage == TearingDown(true))
  {
  }

  // ---- Going down -----------------------------------------------------------------------------

  /** The reaction of the armed supervisor `k` to a death. */
  function Reacts(k: SupId): seq<Event> {
    [ReactE(k)] + ([BeginE] + ([DisarmedE] + ([TearDownE] + [])))
  }

  /** It can be gone through whenever the mutex is free: it takes the stack down and disarms `k`. */
  lemma ReactionTakesDown(s: State, k: SupId)
    requires !s.shuttingDown && s.op.None? && s.armed == Some(k) && k in s.sups
    requires s.sups[k].generation == s.generation && s.sups[k].phase.Reacting? && s.sups[k].finished
    ensures IsRun(s, Reacts(k))
    ensures var t := After(s, Reacts(k));
            && t.op.None? && t.up == {} && t.dead == {} && t.armed.None? && t.generation == s.generation + 1
            && k in t.sups && t.sups[k].phase == Gone
  {
    var s1 := Apply(s, ReactE(k));
    var s2 := Apply(s1, BeginE);
    var s3 := Apply(s2, DisarmedE);
    Begun(s3, TearDownE, []);
    Begun(s2, DisarmedE, [TearDownE] + []);
    Begun(s1, BeginE, [DisarmedE] + ([TearDownE] + []));
    Begun(s, ReactE(k), [BeginE] + ([DisarmedE] + ([TearDownE] + [])));
  }

  /** In a watched stack any component that dies can be answered for: the supervisor sees the death, and
      its reaction takes the whole stack down. */
  lemma DeathTakesDown(k: SupId, c: Component)
    ensures var events := [DiesE(c)] + ([WakeUpE(k, Some(c))] + ([FinishE(k)] + Reacts(k)));
            && IsRun(Watched(k), events)
            && var s := After(Watched(k), events);
               s.op.None? && s.up == {} && s.dead == {} && s.armed.None? && s.generation == 2
  {
    var s0 := Watched(k);
    assert c in ALL;
    var s1 := Apply(s0, DiesE(c));
    var s2 := Apply(s1, WakeUpE(k, Some(c)));
    var s3 := Apply(s2, FinishE(k));
    ReactionTakesDown(s3, k);
    Begun(s2, FinishE(k), Reacts(k));
    Begun(s1, WakeUpE(k, Some(c)), [FinishE(k)] + Reacts(k));
    Begun(s0, DiesE(c), [WakeUpE(k, Some(c))] + ([FinishE(k)] + Reacts(k)));
  }

  /** A supervisor names a component only if that has died and no stop has cancelled the wait. */
  lemma WokenByDeathOnly(s: State, k: SupId, c: Component)
    ensures Enabled(s, WakeUpE(k, Some(c))) ==> k in s.sups && !s.sups[k].cancelled && c in s.dead
  {
  }

  /** Once the program shuts down no report takes the stack down and no start brings it up. */
  lemma ShutDownIsFinal(s: State, k: SupId)
    ensures Enabled(s, ShutDownE) && Apply(s, ShutDownE).shuttingDown
    ensures var t := Apply(s, ShutDownE);
            Enabled(t, ReactE(k)) ==> Apply(t, ReactE(k)).op.None? && Apply(t, ReactE(k)).up == t.up
    ensures var t := Apply(s, ShutDownE);
            t.op.None? ==> Apply(Apply(t, EnterE(true)), BeginE) == t.(outcome := Some(false))
  {
  }
}
