/** A TCP client's well-formed queries are asked once each, in the order they came, and answered in
    that order (src/dns/dns_proxy.cpp:1027-1072), whatever the interleaving. */
module SessionOrder {
  import opened Bytes
  import opened NameCodec
  import opened Racing
  import opened RacingSafety
  import opened SessionSafety

  /** The well-formed queries among `messages`. */
  ghost function Queries(messages: seq<seq<byte>>): seq<seq<byte>> {
    if messages == [] then []
    else (if IsQuery(messages[0]) then [messages[0]] else []) + Queries(messages[1..])
  }

  function Messages(races: map<RaceId, Race>, taken: seq<RaceId>): seq<seq<byte>>
    requires forall r :: r in taken ==> r in races
  {
    seq(|taken|, k requires 0 <= k < |taken| => races[taken[k]].message)
  }

  /** Every query received has been asked, once and in order, or still waits in the inbox. */
  ghost predicate Kept(races: map<RaceId, Race>, t: Session) {
    && (forall r :: r in t.taken ==> r in races)
    && Queries(t.received) == Messages(races, t.taken) + Queries(t.inbox)
  }

  ghost predicate AllKept(s: State) {
    forall j :: 0 <= j < |s.sessions| ==> Kept(s.races, s.sessions[j])
  }

  ghost predicate RacesGrow(before: map<RaceId, Race>, after: map<RaceId, Race>) {
    forall r :: r in before ==> r in after && after[r].message == before[r].message
  }

  predicate SameBooks(t: Session, u: Session) {
    u.received == t.received && u.taken == t.taken && u.inbox == t.inbox
  }

  lemma {:induction false} QueriesConcat(a: seq<seq<byte>>, b: seq<seq<byte>>)
    ensures Queries(a + b) == Queries(a) + Queries(b)
  {
    if a == [] {
      assert a + b == b;
    } else {
      assert (a + b)[1..] == a[1..] + b;
      QueriesConcat(a[1..], b);
    }
  }

  lemma QueriesFrom(inbox: seq<seq<byte>>, from: nat)
    requires from < |inbox|
    ensures Queries(inbox[from..]) == (if IsQuery(inbox[from]) then [inbox[from]] else []) + Queries(inbox[from + 1..])
  {
    assert inbox[from..][1..] == inbox[from + 1..];
  }

  lemma {:induction false} FirstQueryIsFirst(inbox: seq<seq<byte>>, from: nat)
    requires from <= |inbox|
    ensures forall j :: from <= j < FirstQuery(inbox, from) ==> !IsQuery(inbox[j])
    decreases |inbox| - from
  {
    if from < |inbox| && !IsQuery(inbox[from]) { FirstQueryIsFirst(inbox, from + 1); }
  }

  /** Messages that are no queries do not count. */
  lemma {:induction false} QueriesSkip(inbox: seq<seq<byte>>, from: nat, k: nat)
    requires from <= k <= |inbox| && forall j :: from <= j < k ==> !IsQuery(inbox[j])
    ensures Queries(inbox[from..]) == Queries(inbox[k..])
    decreases k - from
  {
    if from < k {
      QueriesFrom(inbox, from);
      QueriesSkip(inbox, from + 1, k);
    }
  }

  lemma FirstQueryLeads(inbox: seq<seq<byte>>, k: nat)
    requires k <= |inbox| && (forall j :: 0 <= j < k ==> !IsQuery(inbox[j])) && (k < |inbox| ==> IsQuery(inbox[k]))
    ensures k == |inbox| ==> Queries(inbox) == []
    ensures k < |inbox| ==> Queries(inbox) == [inbox[k]] + Queries(inbox[k + 1..])
  {
    QueriesSkip(inbox, 0, k);
    assert inbox[0..] == inbox;
    if k < |inbox| { QueriesFrom(inbox, k); }
  }

  lemma KeptGrows(before: map<RaceId, Race>, after: map<RaceId, Race>, t: Session, u: Session)
    requires Kept(before, t) && RacesGrow(before, after) && SameBooks(t, u)
    ensures Kept(after, u)
  {
    assert Messages(after, u.taken) == Messages(before, t.taken);
  }

  lemma KeptReceived(races: map<RaceId, Race>, t: Session, u: Session, messages: seq<seq<byte>>)
    requires Kept(races, t) && u.taken == t.taken && u.received == t.received + messages
    requires u.inbox == t.inbox + messages
    ensures Kept(races, u)
  {
    QueriesConcat(t.received, messages);
    QueriesConcat(t.inbox, messages);
    assert Messages(races, u.taken) == Messages(races, t.taken);
  }

  lemma MessagesThen(before: map<RaceId, Race>, after: map<RaceId, Race>, taken: seq<RaceId>, r: RaceId)
    requires (forall q :: q in taken ==> q in before) && r in after
    requires forall q :: q in taken ==> q in after && after[q].message == before[q].message
    ensures Messages(after, taken + [r]) == Messages(before, taken) + [after[r].message]
  {
  }

  lemma Regroup(whole: seq<seq<byte>>, a: seq<seq<byte>>, x: seq<byte>, b: seq<seq<byte>>)
    requires whole == a + ([x] + b)
    ensures whole == (a + [x]) + b
  {
  }

  lemma KeptTaken(before: map<RaceId, Race>, after: map<RaceId, Race>, t: Session, u: Session, r: RaceId)
    requires Kept(before, t) && r !in before && r in after && after == before[r := after[r]]
    requires u.received == t.received && u.taken == t.taken + [r]
    requires Queries(t.inbox) == [after[r].message] + Queries(u.inbox)
    ensures Kept(after, u)
  {
    MessagesThen(before, after, t.taken, r);
    Regroup(Queries(t.received), Messages(before, t.taken), after[r].message, Queries(u.inbox));
  }

  lemma KeptEmptied(races: map<RaceId, Race>, t: Session, u: Session)
    requires Kept(races, t) && Queries(t.inbox) == []
    requires u.received == t.received && u.taken == t.taken && u.inbox == []
    ensures Kept(races, u)
  {
    assert Messages(races, u.taken) == Messages(races, t.taken);
  }

  // ---- Steps ----------------------------------------------------------------------------------

  /** No session's books change, and no race's message. */
  lemma Untouched(s: State, t: State)
    requires AllKept(s) && RacesGrow(s.races, t.races) && |t.sessions| == |s.sessions|
    requires forall j :: 0 <= j < |s.sessions| ==> SameBooks(s.sessions[j], t.sessions[j])
    ensures AllKept(t)
  {
    forall j | 0 <= j < |t.sessions| ensures Kept(t.races, t.sessions[j]) {
      KeptGrows(s.races, t.races, s.sessions[j], t.sessions[j]);
    }
  }

  lemma SettleKeepsAll(s: State, i: nat, answer: Answer)
    requires AllKept(s) && i < |s.pending| && s.pending[i].race in s.races
    ensures AllKept(Settle(s, i, answer))
  {
    SettleFrame(s, i, answer);
    Untouched(s, Settle(s, i, answer));
  }

  lemma {:induction false} ExpireKeepsAll(s: State, i: nat)
    requires AllKept(s) && i <= |s.pending| && forall p :: p in s.pending ==> p.race in s.races
    ensures AllKept(ExpireQueries(s, i))
    decreases |s.pending| - i
  {
    if i < |s.pending| {
      if s.now < s.pending[i].deadline {
        ExpireKeepsAll(s, i + 1);
      } else {
        SettleFrame(s, i, Failure);
        Untouched(s, ExpireOne(s, i));
        ExpireKeepsAll(ExpireOne(s, i), i);
      }
    }
  }

  lemma {:induction false} ExpireSessionsKeepsAll(s: State, j: nat)
    requires AllKept(s) && j <= |s.sessions|
    ensures AllKept(ExpireSessions(s, j))
    decreases |s.sessions| - j
  {
    if j < |s.sessions| {
      if s.now < s.sessions[j].deadline {
        ExpireSessionsKeepsAll(s, j + 1);
      } else {
        ExpireSessionsKeepsAll(Drop(s, j), j);
      }
    }
  }

  lemma ServiceKeepsAll(s: State, j: nat, r: RaceId)
    requires AllKept(s) && j < |s.sessions| && r !in s.races
    ensures AllKept(Service(s, j, r))
  {
    var t, u := s.sessions[j], Service(s, j, r);
    if !t.busy {
      FirstQueryIsFirst(t.inbox, 0);
      FirstQueryLeads(t.inbox, FirstQuery(t.inbox, 0));
      if FirstQuery(t.inbox, 0) == |t.inbox| { KeptEmptied(s.races, t, u.sessions[j]); }
      else { KeptTaken(s.races, u.races, t, u.sessions[j], r); }
      forall i | 0 <= i < |u.sessions| ensures Kept(u.races, u.sessions[i]) {
        if i != j { KeptGrows(s.races, u.races, s.sessions[i], u.sessions[i]); }
      }
    }
  }

  lemma CollectKeepsAll(s: State)
    requires AllKept(s) && s.batch != []
    ensures AllKept(Collect(s))
  {
    var rest := s.(batch := s.batch[1..]);
    var i := FindPending(s.pending, s.batch[0].race, 0);
    if i < |s.pending| && s.batch[0].race in s.races {
      SettleKeepsAll(rest, i, Reply(s.batch[0].response));
      SettleKeepsAll(rest, i, Failure);
    }
  }

  lemma ReceiveKeepsAll(s: State, j: nat, messages: seq<seq<byte>>, r: RaceId)
    requires AllKept(s) && j < |s.sessions| && r !in s.races
    ensures AllKept(Receive(s, j, messages, r))
  {
    var t := Buffered(s, j, messages);
    KeptReceived(s.races, s.sessions[j], t.sessions[j], messages);
    ServiceKeepsAll(t, j, r);
  }

  lemma WrittenKeepsAll(s: State, j: nat, r: RaceId)
    requires AllKept(s) && j < |s.sessions| && r !in s.races
    ensures AllKept(Written(s, j, r))
  {
    Untouched(s, Flushed(s, j));
    ServiceKeepsAll(Flushed(s, j), j, r);
  }

  lemma DropKeepsAll(s: State, j: nat)
    requires AllKept(s) && j < |s.sessions|
    ensures AllKept(Drop(s, j))
  {
  }

  lemma AdmittedKeepsAll(s: State)
    requires AllKept(s)
    ensures AllKept(Admitted(s))
  {
    var t := Admitted(s);
    var newcomer := t.sessions[|s.sessions|];
    assert Messages(t.races, newcomer.taken) == [];
    assert Kept(t.races, newcomer);
  }

  lemma AcceptKeepsAll(s: State, prepared: bool)
    requires AllKept(s)
    ensures AllKept(Accept(s, prepared))
  {
    var victim := LongestIdle(s.sessions, 0, |s.sessions|);
    if |s.sessions| < MAX_TCP_SESSIONS {
      AdmittedKeepsAll(s);
    } else if victim < |s.sessions| {
      DropKeepsAll(s, victim);
      AdmittedKeepsAll(Drop(s, victim));
    }
  }

  lemma StepKeepsAll(s: State, e: Event)
    requires AllKept(s) && Enabled(s, e)
    ensures AllKept(Apply(s, e))
  {
    if e.ReceiveE? {
      ReceiveKeepsAll(s, e.session, e.messages, e.r);
    } else if e.WrittenE? {
      WrittenKeepsAll(s, e.session, e.r);
    } else if e.DropE? {
      DropKeepsAll(s, e.session);
    } else if e.AcceptE? {
      AcceptKeepsAll(s, e.prepared);
    } else if e.CollectE? {
      CollectKeepsAll(s);
    } else if e.ExpireQueriesE? {
      ExpireKeepsAll(s, 0);
    } else if e.ExpireSessionsE? {
      ExpireSessionsKeepsAll(s, 0);
    } else {
      Untouched(s, Apply(s, e));
    }
  }

  lemma {:induction false} RunKeepsAll(s: State, events: seq<Event>)
    requires AllKept(s) && IsRun(s, events)
    ensures AllKept(After(s, events))
    decreases |events|
  {
    if events != [] {
      StepKeepsAll(s, events[0]);
      RunKeepsAll(Apply(s, events[0]), events[1..]);
    }
  }

  /** In every run, what a live session's client sent is, in order: the queries answered, the one
      being answered if there is one, and those still waiting; malformed messages left out. */
  lemma AnsweredInOrder(timeoutMs: nat, events: seq<Event>, j: nat)
    requires IsRun(Start(timeoutMs), events) && j < |After(Start(timeoutMs), events).sessions|
    ensures var s := After(Start(timeoutMs), events);
            var t := s.sessions[j];
            && (forall r :: r in t.answered ==> r in s.races)
            && (t.race.Some? ==> t.race.value in s.races)
            && Queries(t.received) ==
               Messages(s.races, t.answered) + (if t.race.Some? then [s.races[t.race.value].message] else []) +
                 Queries(t.inbox)
  {
    var s := After(Start(timeoutMs), events);
    assert Good(Start(timeoutMs));
    RunKeepsSeats(Start(timeoutMs), events);
    RunKeepsAll(Start(timeoutMs), events);
    var t := s.sessions[j];
    assert Kept(s.races, t) && OwnBooks(t);
    if t.race.Some? {
      assert t.taken[|t.answered|] == t.race.value;
    }
    forall r | r in t.answered ensures r in s.races { assert r in t.taken; }
    assert Messages(s.races, t.taken) == Messages(s.races, t.answered) +
      (if t.race.Some? then [s.races[t.race.value].message] else []);
  }
}
