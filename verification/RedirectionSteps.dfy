/** Single steps of redirection in terms of what the policy table says afterwards
    (src/dns/redirector.cpp:89-113, 286-333, 343-410). */
module RedirectionSteps {
  import opened Redirection

  /** A rule for these rules is in the table. */
  predicate Routes(table: Table, rules: Rules) {
    table == Ours(rules.version) || table == Foreign(rules.version)
  }

  /** Nothing is written where the table already reads as the rules say: a rule for them, or none where
      they name nothing. */
  lemma RightIsLeftAlone(s: State, allowed: bool, w: Write)
    requires Enabled(s, CheckE(allowed, w))
    requires if s.rules.empty then s.table == Absent else s.recognises && Routes(s.table, s.rules)
    ensures Apply(s, CheckE(allowed, w)) == s
  {
  }

  /** Elsewhere the guardian gives up once the budget is spent, leaving the table as it is; and otherwise
      writes once, and goes on watching if the table then reads back, only the server if it does not, and
      ends if the write failed. */
  lemma WrongIsRepaired(s: State, allowed: bool, w: Write)
    requires Enabled(s, CheckE(allowed, w)) && !s.rules.empty && (!s.recognises || !Routes(s.table, s.rules))
    ensures var t := Apply(s, CheckE(allowed, w));
            && t.repairs == s.repairs + (if allowed then 1 else 0)
            && (!allowed ==> t.guardian == Ended && t.table == s.table)
            && (allowed && w.wrote ==>
                  t.table == Ours(s.rules.version) && t.guardian == Guarding(s.recognises))
            && (allowed && !w.wrote ==> t.guardian == Ended)
  {
  }

  /** A rule in the table where the rules name nothing is removed, and if that fails it is no longer watched. */
  lemma LeftOverIsRemoved(s: State, w: Write)
    requires Enabled(s, CheckE(true, w)) && s.rules.empty && s.table != Absent
    ensures var t := Apply(s, CheckE(true, w));
            t.repairs == s.repairs + 1 &&
            if w.removed then t.table == Absent && t.guardian == Guarding(true)
            else t.table == s.table && t.guardian == Guarding(false)
  {
  }

  /** An install leaves the rule it was to write, or says that it failed and leaves part of one, what was
      there, or nothing. */
  lemma InstallLeaves(table: Table, rules: Rules, w: Write)
    requires !rules.empty
    ensures var (ok, left) := Installed(table, rules, w);
            && ok == w.wrote
            && left == if w.wrote then Ours(rules.version)
                       else if w.torn then Torn else if w.removed then Absent else table
  {
  }

  /** A reload is adopted at once, and written where the server runs. */
  lemma ReloadIsAdopted(s: State, rules: Rules, w: Write)
    requires Enabled(s, ReloadE(rules, w))
    ensures var t := Apply(s, ReloadE(rules, w));
            && t.rules == rules && t.guardian == s.guardian && t.place == s.place
            && (s.resolver && !rules.empty && w.wrote ==> t.table == Ours(rules.version))
            && (s.resolver && rules.empty && w.removed ==> t.table == Absent)
            && (!s.resolver ==> t.table == s.table)
  {
  }

  /** Up, the rule file is watched when asked for, and not before. */
  lemma WatchingBegins(s: State, rules: Rules, w: Write)
    requires s.place == Up
    ensures Enabled(s, HotReloadE) && Enabled(Apply(s, HotReloadE), ReloadE(rules, w))
    ensures !s.watcher ==> !Enabled(s, ReloadE(rules, w))
  {
  }

  /** A subscription that cannot be renewed leaves the guardian to watch the server alone. */
  lemma UnwatchedIsNotRepaired(s: State, allowed: bool, w: Write)
    requires s.guardian == Guarding(true)
    ensures Enabled(s, UnwatchE)
    ensures Apply(s, UnwatchE).guardian == Guarding(false) && !Enabled(Apply(s, UnwatchE), CheckE(allowed, w))
  {
  }

  /** A start without a guardian takes its rule back and then the server, without ever watching the file;
      a stop does the same after ending what watches. */
  lemma WayDown(s: State, watching: bool, removed: bool)
    requires s.place == Arming && s.guardian == NoGuardian
    ensures var t := Apply(Apply(s, ArmE(false, watching)), StopJoinE);
            && t.place == Removing && t.table == s.table
            && var u := Apply(Apply(t, RemoveE(removed)), CloseE);
               u.place == Down && !u.resolver && u.table == if removed then Absent else s.table
  {
  }

  /** What happens outside counts once: another program's change, and the end of the server. */
  lemma OutsideCounts(s: State, table: Table)
    requires !IsOurs(table)
    ensures var t := Apply(s, OutsideE(table));
            t.table == table && t.touched && t.disturbances == s.disturbances + 1 && t.repairs == s.repairs
    ensures s.resolver ==> !Apply(s, ResolverDiesE).resolver && Apply(s, ResolverDiesE).table == s.table
  {
  }

  /** A write of the starting thread or of the watcher counts as a disturbance only if it leaves the table
      other than the rules say, and then once. */
  lemma OwnWritesCount(s: State, w: Write)
    requires Enabled(s, InstallE(w)) && !s.rules.empty
    ensures Apply(s, InstallE(w)).disturbances ==
            s.disturbances +
            if w.wrote || (!w.torn && !w.removed && Routes(s.table, s.rules)) then 0 else 1
  {
  }
}
