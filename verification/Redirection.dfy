/** Taking DNS redirection up and down (src/dns/redirector.cpp:71-207, 281-414), with three threads:
    the one that starts and stops, the guardian that puts a tampered policy rule back, and the
    watcher that reloads the rule file. Each region under the table lock is one step, but for the
    install of a start: if the registry refuses it, the starting thread keeps the lock and asks for
    it again (lines 141-143 and 175). The policy table is the registry (src/dns/nrpt.cpp:203-294),
    where every operation can fail. */
module Redirection {
  /** A rule set; an empty one names nothing, and then no rule should be installed. */
  datatype Rules = Rules(version: nat, empty: bool)

  /** What is under this program's key: nothing, the rule it wrote, a rule it wrote only in part,
      or what another program left there. */
  datatype Table = Absent | Ours(version: nat) | Torn | Foreign(version: nat)

  /** `Ended` is a guardian thread that has returned and is not joined yet. */
  datatype Guardian = NoGuardian | Guarding(watching: bool) | Ended

  /** Where the starting and stopping thread is. At `Relocking` it asks for the table lock, which is
      not recursive, while it holds it. What happens then is undefined: the thread waits for itself,
      or an exception leaves it that nothing on the way catches. It takes no further step here. */
  datatype Place =
    | Down | Joining | Serving | Installing | Relocking | Arming | Up
    | StopJoining(undo: bool) | StopWatching | Removing | Closing

  /** The last call of Start or Stop, and what a Start that began its way back down failed on. */
  datatype Call = NoCall | Starting | ServerRefused | GuardianRefused | Stopping

  /** How the last removal, by a stop, a failed start or at program start, went, and on what. */
  datatype Removal = NoneYet | Succeeded | FailedOn(table: Table)

  /** `recognises` says whether the table reads back as what was written to it. The rest is history:
      the last call; the last removal and whether another program touched the table since; how many
      guardians were started; the guardian's writes; and what can make one due, a change from outside or a write of
      this program's own that left the table other than the rules say. */
  datatype State = State(
    place: Place, resolver: bool, table: Table, rules: Rules, recognises: bool,
    guardian: Guardian, watcher: bool,
    call: Call, lastRemoval: Removal, touched: bool, guardians: nat, repairs: nat, disturbances: nat)

  predicate IsOurs(table: Table) {
    table.Ours? || table.Torn?
  }

  /** A rule of an earlier run is there only if removing it at program start failed
      (src/app/services.cpp:1078-1084). */
  function Initial(table: Table, rules: Rules, recognises: bool): State {
    State(Down, false, table, rules, recognises, NoGuardian, false, NoCall,
          if IsOurs(table) then FailedOn(table) else NoneYet, false, 0, 0, 0)
  }

  /** This program's are its rule and what is left of one, and nothing runs or was written before the
      first call. */
  lemma BeginsStill(version: nat, table: Table, rules: Rules, recognises: bool)
    ensures IsOurs(Ours(version)) && IsOurs(Torn) && !IsOurs(Absent) && !IsOurs(Foreign(version))
    ensures var s := Initial(table, rules, recognises);
            && s.place == Down && !s.resolver && s.guardian == NoGuardian && !s.watcher && !s.touched
            && s.table == table && s.guardians == s.repairs == s.disturbances == 0
            && s.lastRemoval == if table.Ours? || table.Torn? then FailedOn(table) else NoneYet
  {
  }

  /** The table says what the rules do. */
  predicate Says(table: Table, rules: Rules) {
    if rules.empty then table.Absent? else (table.Ours? || table.Foreign?) && table.version == rules.version
  }

  /** The same as far as reading it back can tell. */
  predicate Matches(s: State) {
    Says(s.table, s.rules) && (s.rules.empty || s.recognises)
  }

  // ---- Writing the table ----------------------------------------------------------------------

  /** How the registry answers one install: whether the old rule goes, whether the new one is
      written, and, if not, whether a part of it stays. */
  datatype Write = Write(removed: bool, wrote: bool, torn: bool)

  function Removed(table: Table, ok: bool): Table {
    if ok then Absent else table
  }

  /** What an install returns and what it leaves. With nothing to route it removes the rule and says
      true whether or not that worked. */
  function Installed(table: Table, rules: Rules, w: Write): (bool, Table) {
    if rules.empty then (true, Removed(table, w.removed))
    else if w.wrote then (true, Ours(rules.version))
    else (false, if w.torn then Torn else Removed(table, w.removed))
  }

  function Install(s: State, w: Write): State {
    var table := Installed(s.table, s.rules, w).1;
    s.(table := table, disturbances := s.disturbances + if Says(table, s.rules) then 0 else 1)
  }

  /** The guardian's look at the table: it is right, or written again if the budget allows. A write
      that fails ends the guardian; one that does not read back ends the watch. */
  function Check(s: State, allowed: bool, w: Write): State
    requires s.guardian.Guarding?
  {
    if Matches(s) then s
    else if !allowed then s.(guardian := Ended)
    else
      var (ok, table) := Installed(s.table, s.rules, w);
      var written := s.(table := table, repairs := s.repairs + 1);
      if !ok then written.(guardian := Ended)
      else if Matches(written) then written
      else written.(guardian := Guarding(false))
  }

  /** The watcher publishes the rules it read, and rewrites the table if the server is running. */
  function Reload(s: State, rules: Rules, w: Write): State {
    var published := s.(rules := rules);
    if s.resolver then Install(published, w)
    else published.(disturbances := s.disturbances + if Says(s.table, rules) then 0 else 1)
  }

  // ---- Steps ----------------------------------------------------------------------------------

  datatype Event =
    | StartE | JoinE | ServeE(ok: bool) | InstallE(w: Write) | ArmE(ok: bool, watching: bool)
    | HotReloadE | StopE | StopJoinE | StopWatcherE | RemoveE(ok: bool) | CloseE
    | CheckE(allowed: bool, w: Write) | UnwatchE | GuardianEndsE
    | ReloadE(rules: Rules, w: Write) | OutsideE(table: Table) | ResolverDiesE

  predicate Enabled(s: State, e: Event) {
    match e
    case StartE => s.place == Down
    case JoinE => s.place == Joining && !s.guardian.Guarding?
    case ServeE(ok) => s.place == Serving
    case InstallE(w) => s.place == Installing
    case ArmE(ok, watching) => s.place == Arming
    case HotReloadE => s.place == Up
    case StopE => s.place == Up || s.place == Down
    case StopJoinE => s.place.StopJoining? && !s.guardian.Guarding?
    case StopWatcherE => s.place == StopWatching
    case RemoveE(ok) => s.place == Removing
    case CloseE => s.place == Closing
    case CheckE(allowed, w) => s.guardian == Guarding(true)
    case UnwatchE => s.guardian == Guarding(true)
    case GuardianEndsE => s.guardian.Guarding?
    case ReloadE(rules, w) => s.watcher
    case OutsideE(table) => !IsOurs(table)
    case ResolverDiesE => s.resolver
  }

  function Apply(s: State, e: Event): State
    requires Enabled(s, e)
  {
    match e
    case StartE => s.(place := Joining, call := Starting)
    case JoinE => s.(place := Serving, guardian := NoGuardian)
    case ServeE(ok) =>
      if ok then s.(place := Installing, resolver := true) else s.(place := Down, call := ServerRefused)
    case InstallE(w) => Install(s, w).(place := if Installed(s.table, s.rules, w).0 then Arming else Relocking)
    case ArmE(ok, watching) =>
      if ok then s.(place := Up, guardian := Guarding(watching), guardians := s.guardians + 1)
      else s.(place := StopJoining(true), call := GuardianRefused)
    case HotReloadE => s.(watcher := true)
    case StopE => s.(place := StopJoining(false), call := Stopping)
    case StopJoinE => s.(guardian := NoGuardian, place := if s.place.undo then Removing else StopWatching)
    case StopWatcherE => s.(watcher := false, place := Removing)
    case RemoveE(ok) =>
      s.(table := Removed(s.table, ok), lastRemoval := if ok then Succeeded else FailedOn(s.table),
         touched := false, place := Closing)
    case CloseE => s.(resolver := false, place := Down)
    case CheckE(allowed, w) => Check(s, allowed, w)
    case UnwatchE => s.(guardian := Guarding(false))
    case GuardianEndsE => s.(guardian := Ended)
    case ReloadE(rules, w) => Reload(s, rules, w)
    case OutsideE(table) => s.(table := table, touched := true, disturbances := s.disturbances + 1)
    case ResolverDiesE => s.(resolver := false)
  }

  predicate IsRun(s: State, events: seq<Event>)
    decreases |events|
  {
    events == [] || (Enabled(s, events[0]) && IsRun(Apply(s, events[0]), events[1..]))
  }

  function After(s: State, events: seq<Event>): State
    requires IsRun(s, events)
    decreases |events|
  {
    if events == [] then s else After(Apply(s, events[0]), events[1..])
  }

  // ---- What is left behind --------------------------------------------------------------------

  /** The last removal failed on a rule of this program's, and no other program touched it since. */
  predicate Remnant(s: State) {
    s.lastRemoval.FailedOn? && IsOurs(s.lastRemoval.table) && !s.touched
  }

  /** Which threads can be running, and whether this program's rule can be there, at each place. */
  predicate Tidy(s: State) {
    var still := s.guardian == NoGuardian && !s.watcher;
    var settled := IsOurs(s.table) <==> Remnant(s);
    match s.place
    case Down => still && settled && s.call != Starting && !s.resolver
    case Joining => still && settled && !s.resolver
    case Serving => still && settled && !s.resolver
    case Installing => still && settled
    case Relocking => still
    case Arming => still
    case Up => true
    case StopJoining(undo) => (undo ==> still) && s.call != Starting
    case StopWatching => s.guardian == NoGuardian && s.call != Starting
    case Removing => still && s.call != Starting
    case Closing => still && settled && s.call != Starting
  }

  lemma StepKeepsTidy(s: State, e: Event)
    requires Tidy(s) && Enabled(s, e)
    ensures Tidy(Apply(s, e))
  {
  }

  lemma {:induction false} RunKeepsTidy(s: State, events: seq<Event>)
    requires Tidy(s) && IsRun(s, events)
    ensures Tidy(After(s, events))
    decreases |events|
  {
    if events != [] {
      StepKeepsTidy(s, events[0]);
      RunKeepsTidy(Apply(s, events[0]), events[1..]);
    }
  }

  predicate WithoutStart(events: seq<Event>) {
    forall i :: 0 <= i < |events| ==> !events[i].StartE?
  }

  /** A stop, or none, is under way. */
  predicate GoingDown(s: State) {
    && s.guardian == NoGuardian && !s.watcher
    && (s.place == Down || s.place.StopJoining? || s.place == StopWatching || s.place == Removing || s.place == Closing)
  }

  lemma {:induction false} OnlyStartPutsItThere(s: State, events: seq<Event>)
    requires GoingDown(s) && IsRun(s, events) && WithoutStart(events)
    ensures GoingDown(After(s, events)) && (IsOurs(After(s, events).table) ==> IsOurs(s.table))
    decreases |events|
  {
    if events != [] {
      assert !events[0].StartE?;
      OnlyStartPutsItThere(Apply(s, events[0]), events[1..]);
    }
  }

  /** In every run, whenever the redirector is down, the last call was a Stop, or a Start that the
      server or the guardian's thread refused; the server and both threads are down; the table holds a
      rule of this program's if and only if the last removal failed on one and nothing outside touched
      it since; and nothing that can happen before the next Start puts one there. */
  lemma LeftBehindIff(table: Table, rules: Rules, recognises: bool, events: seq<Event>, more: seq<Event>)
    requires IsRun(Initial(table, rules, recognises), events)
    requires var s := After(Initial(table, rules, recognises), events);
             s.place == Down && IsRun(s, more) && WithoutStart(more)
    ensures var s := After(Initial(table, rules, recognises), events);
            && s.call != Starting && !s.resolver && !s.guardian.Guarding? && !s.watcher
            && (IsOurs(s.table) <==> Remnant(s))
            && (IsOurs(After(s, more).table) ==> IsOurs(s.table))
  {
    RunKeepsTidy(Initial(table, rules, recognises), events);
    OnlyStartPutsItThere(After(Initial(table, rules, recognises), events), more);
  }

  predicate RemovalsSucceed(events: seq<Event>) {
    forall i :: 0 <= i < |events| && events[i].RemoveE? ==> events[i].ok
  }

  predicate Removes(events: seq<Event>) {
    exists i :: 0 <= i < |events| && events[i].RemoveE?
  }

  lemma {:induction false} NoneFailed(s: State, events: seq<Event>)
    requires IsRun(s, events) && RemovalsSucceed(events) && (!s.lastRemoval.FailedOn? || Removes(events))
    ensures !After(s, events).lastRemoval.FailedOn?
    decreases |events|
  {
    if events != [] {
      assert events[0].RemoveE? ==> events[0].ok;
      if !events[0].RemoveE? && Removes(events) {
        var i :| 0 <= i < |events| && events[i].RemoveE?;
        assert events[1..][i - 1].RemoveE?;
      }
      NoneFailed(Apply(s, events[0]), events[1..]);
    }
  }

  /** So where no removal fails, nothing is left behind, not even of an earlier run once one was made. */
  lemma NothingIsLeftBehind(table: Table, rules: Rules, recognises: bool, events: seq<Event>)
    requires !IsOurs(table) || Removes(events)
    requires IsRun(Initial(table, rules, recognises), events) && RemovalsSucceed(events)
    requires After(Initial(table, rules, recognises), events).place == Down
    ensures !IsOurs(After(Initial(table, rules, recognises), events).table)
  {
    RunKeepsTidy(Initial(table, rules, recognises), events);
    NoneFailed(Initial(table, rules, recognises), events);
  }

  lemma Begin(s: State, e: Event, rest: seq<Event>)
    requires Enabled(s, e) && IsRun(Apply(s, e), rest)
    ensures IsRun(s, [e] + rest) && After(s, [e] + rest) == After(Apply(s, e), rest)
  {
    assert ([e] + rest)[1..] == rest;
  }

  /** A start that goes well. */
  function Started(rest: seq<Event>): seq<Event> {
    [StartE] + ([JoinE] + ([ServeE(true)] + ([InstallE(Write(true, true, false))] + ([ArmE(true, true)] + rest))))
  }

  /** A stop whose removal fails. */
  function Stopped(): seq<Event> {
    [StopE] + ([GuardianEndsE] + ([StopJoinE] + ([StopWatcherE] + ([RemoveE(false)] + ([CloseE] + [])))))
  }

  function UpWith(rules: Rules, recognises: bool): State {
    Initial(Absent, rules, recognises).(place := Up, resolver := true, table := Ours(rules.version),
                                        guardian := Guarding(true), call := Starting, guardians := 1)
  }

  lemma StoppedHappens(rules: Rules, recognises: bool)
    ensures IsRun(UpWith(rules, recognises), Stopped())
    ensures var s := After(UpWith(rules, recognises), Stopped()); s.place == Down && s.table == Ours(rules.version)
  {
    var s0 := UpWith(rules, recognises);
    var s1 := Apply(s0, StopE);
    var s2 := Apply(s1, GuardianEndsE);
    var s3 := Apply(s2, StopJoinE);
    var s4 := Apply(s3, StopWatcherE);
    var s5 := Apply(s4, RemoveE(false));
    Begin(s5, CloseE, []);
    Begin(s4, RemoveE(false), [CloseE] + []);
    Begin(s3, StopWatcherE, [RemoveE(false)] + ([CloseE] + []));
    Begin(s2, StopJoinE, [StopWatcherE] + ([RemoveE(false)] + ([CloseE] + [])));
    Begin(s1, GuardianEndsE, [StopJoinE] + ([StopWatcherE] + ([RemoveE(false)] + ([CloseE] + []))));
    Begin(s0, StopE, [GuardianEndsE] + ([StopJoinE] + ([StopWatcherE] + ([RemoveE(false)] + ([CloseE] + [])))));
  }

  /** And a removal that fails does leave the rule: Start, then Stop returns, and it is there. */
  lemma StopCanLeaveTheRule(rules: Rules, recognises: bool)
    requires !rules.empty
    ensures IsRun(Initial(Absent, rules, recognises), Started(Stopped()))
    ensures var s := After(Initial(Absent, rules, recognises), Started(Stopped()));
            s.place == Down && s.table == Ours(rules.version) && IsOurs(s.table)
  {
    var w := Write(true, true, false);
    var s0 := Initial(Absent, rules, recognises);
    var s1 := Apply(s0, StartE);
    var s2 := Apply(s1, JoinE);
    var s3 := Apply(s2, ServeE(true));
    var s4 := Apply(s3, InstallE(w));
    var rest := Stopped();
    assert Apply(s4, ArmE(true, true)) == UpWith(rules, recognises);
    StoppedHappens(rules, recognises);
    Begin(s4, ArmE(true, true), rest);
    Begin(s3, InstallE(w), [ArmE(true, true)] + rest);
    Begin(s2, ServeE(true), [InstallE(w)] + ([ArmE(true, true)] + rest));
    Begin(s1, JoinE, [ServeE(true)] + ([InstallE(w)] + ([ArmE(true, true)] + rest)));
    Begin(s0, StartE, [JoinE] + ([ServeE(true)] + ([InstallE(w)] + ([ArmE(true, true)] + rest))));
  }

  // ---- An install the registry refuses ---------------------------------------------------------

  /** Start or Stop has returned, or the redirector was never started. */
  predicate AtRest(s: State) {
    s.place == Up || s.place == Down
  }

  ghost predicate CanRest(s: State) {
    exists events :: IsRun(s, events) && AtRest(After(s, events))
  }

  /** A thread that asks for a lock it holds stays where it is, whatever happens around it; the server
      goes on running unless it ends on its own, and the table is no one's to clear. */
  lemma {:induction false} RelockingForGood(s: State, events: seq<Event>)
    requires s.place == Relocking && Tidy(s) && IsRun(s, events)
    ensures var t := After(s, events);
            && t.place == Relocking && t.guardian == NoGuardian && !t.watcher
            && (t.table == s.table || exists i :: 0 <= i < |events| && events[i].OutsideE?)
            && (t.resolver == s.resolver || exists i :: 0 <= i < |events| && events[i].ResolverDiesE?)
    decreases |events|
  {
    if events != [] {
      assert events[0].OutsideE? || events[0].ResolverDiesE?;
      RelockingForGood(Apply(s, events[0]), events[1..]);
      assert forall i :: 0 <= i < |events| - 1 ==> events[1..][i] == events[i + 1];
    }
  }

  lemma RelockingNeverRests(s: State)
    requires s.place == Relocking && Tidy(s)
    ensures !CanRest(s)
  {
    forall events | IsRun(s, events) ensures !AtRest(After(s, events)) { RelockingForGood(s, events); }
  }

  /** In every run: once the install is made, the thread that made it can still return from Start or
      from a later call if and only if there was nothing to install or the registry took it. */
  lemma StartReturnsIff(table: Table, rules: Rules, recognises: bool, events: seq<Event>, w: Write)
    requires IsRun(Initial(table, rules, recognises), events)
    requires Enabled(After(Initial(table, rules, recognises), events), InstallE(w))
    ensures var s := After(Initial(table, rules, recognises), events);
            CanRest(Apply(s, InstallE(w))) <==> s.rules.empty || w.wrote
  {
    RunKeepsTidy(Initial(table, rules, recognises), events);
    var s := After(Initial(table, rules, recognises), events);
    var t := Apply(s, InstallE(w));
    StepKeepsTidy(s, InstallE(w));
    if s.rules.empty || w.wrote {
      Begin(t, ArmE(true, true), []);
    } else {
      RelockingNeverRests(t);
    }
  }

  /** No run that comes to rest has a refused install in it. */
  lemma {:induction false} AtRestNoneWasRefused(s: State, events: seq<Event>, i: nat)
    requires Tidy(s) && IsRun(s, events) && i < |events| && AtRest(After(s, events))
    ensures IsRun(s, events[..i]) && Enabled(After(s, events[..i]), events[i])
    ensures events[i].InstallE? ==> After(s, events[..i]).rules.empty || events[i].w.wrote
    decreases i
  {
    var t := Apply(s, events[0]);
    StepKeepsTidy(s, events[0]);
    if i == 0 {
      if t.place == Relocking { RelockingForGood(t, events[1..]); }
    } else {
      AtRestNoneWasRefused(t, events[1..], i - 1);
      assert events[..i][1..] == events[1..][..i - 1];
    }
  }

  /** It happens whatever the rules, if they name something: the registry refuses the install of the
      very first Start, which then never returns, with the server up and no roll-back made. */
  lemma RefusedInstallStrands(table: Table, rules: Rules, recognises: bool, removed: bool, torn: bool)
    requires !rules.empty
    ensures var run := [StartE] + ([JoinE] + ([ServeE(true)] + ([InstallE(Write(removed, false, torn))] + [])));
            && IsRun(Initial(table, rules, recognises), run)
            && var s := After(Initial(table, rules, recognises), run);
               s.place == Relocking && s.resolver && !CanRest(s)
  {
    var w := Write(removed, false, torn);
    var s0 := Initial(table, rules, recognises);
    var s1 := Apply(s0, StartE);
    var s2 := Apply(s1, JoinE);
    var s3 := Apply(s2, ServeE(true));
    Begin(s3, InstallE(w), []);
    Begin(s2, ServeE(true), [InstallE(w)] + []);
    Begin(s1, JoinE, [ServeE(true)] + ([InstallE(w)] + []));
    Begin(s0, StartE, [JoinE] + ([ServeE(true)] + ([InstallE(w)] + [])));
    RelockingNeverRests(Apply(s3, InstallE(w)));
  }

  // ---- Repairs --------------------------------------------------------------------------------

  /** One write a guardian is due however it finds the table, if it cannot recognise its own. */
  function Excuse(s: State): nat {
    if s.recognises then 0 else s.guardians
  }

  /** A write is due beyond that one. */
  function DueWrites(s: State): nat {
    if Matches(s) || (!s.recognises && !s.rules.empty) then 0 else 1
  }

  /** The guardians have never written more often than something disturbed the table, plus once each
      if they cannot recognise their writing; and a watch still kept has its write still to come. */
  predicate Paced(s: State) {
    && s.repairs <= s.disturbances + Excuse(s)
    && (s.place == Arming ==> s.repairs + DueWrites(s) <= s.disturbances + Excuse(s))
    && (s.guardian == Guarding(true) ==>
          s.repairs + DueWrites(s) + (if s.recognises then 0 else 1) <= s.disturbances + Excuse(s))
  }

  lemma CheckKeepsPace(s: State, allowed: bool, w: Write)
    requires Paced(s) && s.guardian == Guarding(true) && s.place != Arming
    ensures Check(s, allowed, w).recognises == s.recognises && Paced(Check(s, allowed, w))
  {
  }

  lemma ReloadKeepsPace(s: State, rules: Rules, w: Write)
    requires Paced(s)
    ensures Reload(s, rules, w).recognises == s.recognises && Paced(Reload(s, rules, w))
  {
  }

  lemma StepKeepsPace(s: State, e: Event)
    requires Tidy(s) && Paced(s) && Enabled(s, e)
    ensures Apply(s, e).recognises == s.recognises && Paced(Apply(s, e))
  {
    if e.CheckE? { CheckKeepsPace(s, e.allowed, e.w); } else if e.ReloadE? { ReloadKeepsPace(s, e.rules, e.w); }
  }

  lemma {:induction false} RunKeepsPace(s: State, events: seq<Event>)
    requires Tidy(s) && Paced(s) && IsRun(s, events)
    ensures Paced(After(s, events)) && After(s, events).recognises == s.recognises
    decreases |events|
  {
    if events != [] {
      StepKeepsPace(s, events[0]);
      StepKeepsTidy(s, events[0]);
      RunKeepsPace(Apply(s, events[0]), events[1..]);
    }
  }

  /** The guardian does not answer its own writing: in every run it writes at most once for each
      disturbance, and, where the table never reads back as written, once more for each Start. */
  lemma RepairsAnswerDisturbances(table: Table, rules: Rules, recognises: bool, events: seq<Event>)
    requires IsRun(Initial(table, rules, recognises), events)
    ensures var s := After(Initial(table, rules, recognises), events);
            s.repairs <= s.disturbances + if recognises then 0 else s.guardians
  {
    RunKeepsPace(Initial(table, rules, recognises), events);
  }

  // ---- A table that never reads back as written -----------------------------------------------

  /** Where it does not, a write of a rule ends the watch, and only the next Start begins another. */
  lemma UnrecognisedEndsTheWatch(s: State, e: Event)
    requires !s.recognises && !s.rules.empty && Enabled(s, e)
    ensures Apply(s, e).repairs != s.repairs ==> Apply(s, e).guardian != Guarding(true)
    ensures s.guardian != Guarding(true) && Apply(s, e).guardian == Guarding(true) ==> e.ArmE?
  {
  }

  predicate NeverEmpty(events: seq<Event>) {
    forall i :: 0 <= i < |events| && events[i].ReloadE? ==> !events[i].rules.empty
  }

  predicate OncePerGuardian(s: State) {
    && !s.rules.empty && !s.recognises
    && s.repairs <= s.guardians && (s.guardian == Guarding(true) ==> s.repairs + 1 <= s.guardians)
  }

  lemma StepKeepsOncePerGuardian(s: State, e: Event)
    requires OncePerGuardian(s) && Enabled(s, e) && (e.ReloadE? ==> !e.rules.empty)
    ensures OncePerGuardian(Apply(s, e))
  {
    UnrecognisedEndsTheWatch(s, e);
  }

  lemma {:induction false} RunKeepsOncePerGuardian(s: State, events: seq<Event>)
    requires OncePerGuardian(s) && IsRun(s, events) && NeverEmpty(events)
    ensures OncePerGuardian(After(s, events))
    decreases |events|
  {
    if events != [] {
      assert events[0].ReloadE? ==> !events[0].rules.empty;
      StepKeepsOncePerGuardian(s, events[0]);
      RunKeepsOncePerGuardian(Apply(s, events[0]), events[1..]);
    }
  }

  /** Then, as long as there is a rule to hold, the guardian of each Start writes at most once,
      whatever disturbs the table. */
  lemma UnrecognisedWritesOnce(table: Table, rules: Rules, events: seq<Event>)
    requires !rules.empty && IsRun(Initial(table, rules, false), events) && NeverEmpty(events)
    ensures After(Initial(table, rules, false), events).repairs <= After(Initial(table, rules, false), events).guardians
  {
    RunKeepsOncePerGuardian(Initial(table, rules, false), events);
  }
}
