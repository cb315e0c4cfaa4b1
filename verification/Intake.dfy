/** How many queries the forwarder takes on (src/dns/dns_proxy.cpp:948, 1028-1072). */
module Intake {
  import opened Bytes
  import opened NameCodec
  import opened Racing
  import opened RacingSafety

  // ---- UDP ------------------------------------------------------------------------------------

  function UdpQueries(pending: seq<Pending>): nat {
    if pending == [] then 0 else (if pending[0].client.Udp? then 1 else 0) + UdpQueries(pending[1..])
  }

  lemma {:induction false} UdpConcat(a: seq<Pending>, b: seq<Pending>)
    ensures UdpQueries(a + b) == UdpQueries(a) + UdpQueries(b)
  {
    if a == [] {
      assert a + b == b;
    } else {
      assert (a + b)[1..] == a[1..] + b;
      UdpConcat(a[1..], b);
    }
  }

  lemma {:induction false} NoMoreThanAll(pending: seq<Pending>)
    ensures UdpQueries(pending) <= |pending|
  {
    if pending != [] { NoMoreThanAll(pending[1..]); }
  }

  lemma RemovingTakesNoMore(pending: seq<Pending>, i: nat)
    requires i < |pending|
    ensures UdpQueries(RemoveAt(pending, i)) <= UdpQueries(pending)
  {
    assert pending == pending[..i] + ([pending[i]] + pending[i + 1..]);
    UdpConcat(pending[..i], [pending[i]] + pending[i + 1..]);
    UdpConcat([pending[i]], pending[i + 1..]);
    UdpConcat(pending[..i], pending[i + 1..]);
  }

  lemma JoiningCounts(pending: seq<Pending>, p: Pending)
    ensures UdpQueries(pending + [p]) == UdpQueries(pending) + (if p.client.Udp? then 1 else 0)
  {
    UdpConcat(pending, [p]);
    assert [p][1..] == [];
  }

  lemma {:induction false} ExpiryTakesNoMore(s: State, i: nat)
    requires i <= |s.pending| && forall p :: p in s.pending ==> p.race in s.races
    ensures UdpQueries(ExpireQueries(s, i).pending) <= UdpQueries(s.pending)
    decreases |s.pending| - i
  {
    if i < |s.pending| {
      if s.now < s.pending[i].deadline {
        ExpiryTakesNoMore(s, i + 1);
      } else {
        RemovingTakesNoMore(s.pending, i);
        ExpiryTakesNoMore(ExpireOne(s, i), i);
      }
    }
  }

  lemma CollectTakesNoMore(s: State)
    requires s.batch != []
    ensures UdpQueries(Collect(s).pending) <= UdpQueries(s.pending)
  {
    var i := FindPending(s.pending, s.batch[0].race, 0);
    if i < |s.pending| { RemovingTakesNoMore(s.pending, i); }
  }

  lemma ServicePends(s: State, i: nat, r: RaceId, joining: Pending)
    requires i < |s.sessions| && r !in s.races
    requires joining == Pending(r, Tcp(s.sessions[i].id), s.now + s.timeoutMs + TICK_MS)
    ensures Service(s, i, r).pending == s.pending || Service(s, i, r).pending == s.pending + [joining]
  {
  }

  lemma ServiceCounts(s: State, i: nat, r: RaceId)
    requires i < |s.sessions| && r !in s.races
    ensures UdpQueries(Service(s, i, r).pending) == UdpQueries(s.pending)
  {
    var joining := Pending(r, Tcp(s.sessions[i].id), s.now + s.timeoutMs + TICK_MS);
    JoiningCounts(s.pending, joining);
    ServicePends(s, i, r, joining);
  }

  lemma StepKeepsCap(s: State, e: Event)
    requires UdpQueries(s.pending) <= MAX_PENDING_QUERIES && Enabled(s, e)
    ensures UdpQueries(Apply(s, e).pending) <= MAX_PENDING_QUERIES
  {
    if e.ArriveE? {
      NoMoreThanAll(s.pending);
      JoiningCounts(s.pending, Pending(e.r, Udp, s.now + s.timeoutMs + TICK_MS));
    } else if e.ReceiveE? {
      ServiceCounts(Buffered(s, e.session, e.messages), e.session, e.r);
    } else if e.WrittenE? {
      ServiceCounts(Flushed(s, e.session), e.session, e.r);
    } else if e.CollectE? {
      CollectTakesNoMore(s);
    } else if e.ExpireQueriesE? {
      ExpiryTakesNoMore(s, 0);
    } else if e.ExpireSessionsE? {
      ExpireSessionsBooks(s, 0);
    }
  }

  lemma {:induction false} RunKeepsCap(s: State, events: seq<Event>)
    requires UdpQueries(s.pending) <= MAX_PENDING_QUERIES && IsRun(s, events)
    ensures UdpQueries(After(s, events).pending) <= MAX_PENDING_QUERIES
    decreases |events|
  {
    if events != [] {
      StepKeepsCap(s, events[0]);
      RunKeepsCap(Apply(s, events[0]), events[1..]);
    }
  }

  /** In every run at most 512 queries that came by UDP are pending. */
  lemma UdpIntakeIsCapped(timeoutMs: nat, events: seq<Event>)
    requires IsRun(Start(timeoutMs), events)
    ensures UdpQueries(After(Start(timeoutMs), events).pending) <= 512
  {
    RunKeepsCap(Start(timeoutMs), events);
  }

  // ---- TCP ------------------------------------------------------------------------------------

  lemma {:induction false} FirstQueryFinds(inbox: seq<seq<byte>>, from: nat)
    requires from <= |inbox|
    ensures FirstQuery(inbox, from) < |inbox| <==> exists k :: from <= k < |inbox| && IsQuery(inbox[k])
    decreases |inbox| - from
  {
    if from < |inbox| && !IsQuery(inbox[from]) { FirstQueryFinds(inbox, from + 1); }
  }

  /** The cap is not asked about a TCP client's query: an idle session's is entered exactly when a
      well-formed one waits, however many are pending. */
  lemma TcpIntakeIgnoresTheCap(s: State, i: nat, r: RaceId)
    requires i < |s.sessions| && r !in s.races && !s.sessions[i].busy
    ensures |Service(s, i, r).pending| == |s.pending| +
            (if exists k :: 0 <= k < |s.sessions[i].inbox| && IsQuery(s.sessions[i].inbox[k]) then 1 else 0)
  {
    FirstQueryFinds(s.sessions[i].inbox, 0);
  }
}
