/** The forwarder's limits and deadlines (src/dns/dns_proxy.cpp:66-110, 948-968, 1017-1072, 1116-1158), in
    numbers and milliseconds. */
module RacingTimes {
  import opened Bytes
  import opened NameCodec
  import opened Racing

  // ---- Queries --------------------------------------------------------------------------------

  /** Below 512 pending queries one more is entered, to be failed 100 ms after the upstreams' own time is
      over; at 512 it is failed at once and not entered. */
  lemma ArrivalIs(s: State, r: RaceId, message: seq<byte>)
    requires r !in s.races
    ensures var t := Arrive(s, r, message);
            && r in t.races && t.races[r].message == message && t.sessions == s.sessions
            && if |s.pending| < 512
               then t.pending == s.pending + [Pending(r, Udp, s.now + s.timeoutMs + 100)] &&
                    t.phase == Dispatching(r) && t.races[r].answers == [] && t.races[r].total == 0
               else t.pending == s.pending && t.phase == s.phase && t.races[r].answers == [Failure]
  {
  }

  /** A query taken from a session is entered with the same deadline, which becomes the session's. */
  lemma TakingIs(s: State, i: nat, r: RaceId, k: nat)
    requires i < |s.sessions| && r !in s.races && !s.sessions[i].busy
    requires var inbox := s.sessions[i].inbox;
             k < |inbox| && IsQuery(inbox[k]) && forall j :: 0 <= j < k ==> !IsQuery(inbox[j])
    ensures var t, u := s.sessions[i], Service(s, i, r);
            && u.pending == s.pending + [Pending(r, Tcp(t.id), s.now + s.timeoutMs + 100)] && u.phase == Dispatching(r)
            && r in u.races && u.races[r].message == t.inbox[k] && u.races[r].answers == []
            && |u.sessions| == |s.sessions| && u.sessions[i].busy && u.sessions[i].race == Some(r)
            && u.sessions[i].deadline == s.now + s.timeoutMs + 100 && u.sessions[i].inbox == t.inbox[k + 1..]
  {
    FirstIs(s.sessions[i].inbox, 0, k);
  }

  lemma {:induction false} FirstIs(inbox: seq<seq<byte>>, from: nat, k: nat)
    requires from <= k <= |inbox| && (k < |inbox| ==> IsQuery(inbox[k]))
    requires forall j :: from <= j < k ==> !IsQuery(inbox[j])
    ensures FirstQuery(inbox, from) == k
    decreases k - from
  {
    if from < k { FirstIs(inbox, from + 1, k); }
  }

  /** A session with none in its inbox waits for more, and keeps nothing malformed. */
  lemma NothingToTake(s: State, i: nat, r: RaceId)
    requires i < |s.sessions| && r !in s.races
    requires forall j :: 0 <= j < |s.sessions[i].inbox| ==> !IsQuery(s.sessions[i].inbox[j])
    ensures var u := Service(s, i, r);
            && u.pending == s.pending && u.races == s.races && u.phase == s.phase
            && (!s.sessions[i].busy ==> u.sessions == s.sessions[i := s.sessions[i].(inbox := [])])
  {
    FirstIs(s.sessions[i].inbox, 0, |s.sessions[i].inbox|);
  }

  // ---- Sessions -------------------------------------------------------------------------------

  /** Below 32 sessions a client whose socket can be prepared comes in, with 15 seconds to begin. */
  lemma NewcomerIs(s: State)
    requires |s.sessions| < 32
    ensures Accept(s, false) == s
    ensures var t := Accept(s, true);
            && |t.sessions| == |s.sessions| + 1 && t.sessions[..|s.sessions|] == s.sessions
            && var n := t.sessions[|s.sessions|];
               n.id == s.nextSession && !n.busy && !n.owed && n.open && n.deadline == s.now + 15000 && n.inbox == []
  {
  }

  /** What a client sends, and what it is sent, gives it 15 seconds more; an answer it is sent frees the
      session, or closes it if no length prefix can describe it. */
  lemma ActivityExtends(s: State, i: nat, messages: seq<seq<byte>>, race: RaceId, answer: Answer)
    requires i < |s.sessions|
    ensures Buffered(s, i, messages).sessions[i].deadline == s.now + 15000
    ensures Buffered(s, i, messages).sessions[i].inbox == s.sessions[i].inbox + messages
    ensures Flushed(s, i).sessions[i].deadline == s.now + 15000 && !Flushed(s, i).sessions[i].owed
    ensures var t := AnswerSession(s.sessions[i], race, answer, s.now);
            && !t.busy && t.race == None && t.answered == s.sessions[i].answered + [race]
            && if answer.Reply? && (|answer.response| == 0 || |answer.response| > 65535)
               then !t.open && t.owed == s.sessions[i].owed
               else t.owed && t.deadline == s.now + 15000 && t.open == s.sessions[i].open
  {
  }

  function Unexpired(sessions: seq<Session>, now: nat): seq<Session> {
    if |sessions| == 0 then []
    else (if now < sessions[0].deadline then [sessions[0]] else []) + Unexpired(sessions[1..], now)
  }

  /** The sessions past their deadline go, and the others stay in their order. */
  lemma {:induction false} ExpiryKeepsTheRest(s: State, i: nat)
    requires i <= |s.sessions|
    ensures ExpireSessions(s, i).sessions == s.sessions[..i] + Unexpired(s.sessions[i..], s.now)
    decreases |s.sessions| - i
  {
    if i == |s.sessions| {
      assert s.sessions[..i] + [] == s.sessions;
    } else {
      var t, rest := s.sessions[i], s.sessions[i + 1..];
      assert s.sessions[i..][1..] == rest;
      if s.now < t.deadline {
        ExpiryKeepsTheRest(s, i + 1);
        assert s.sessions[..i + 1] + Unexpired(rest, s.now) == s.sessions[..i] + ([t] + Unexpired(rest, s.now));
      } else {
        ExpiryKeepsTheRest(Drop(s, i), i);
        assert Drop(s, i).sessions[..i] == s.sessions[..i] && Drop(s, i).sessions[i..] == rest;
        assert [] + Unexpired(rest, s.now) == Unexpired(rest, s.now);
      }
    }
  }
}
