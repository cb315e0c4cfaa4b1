/** The forwarder's loop and its workers (src/dns/dns_proxy.cpp) as interleaved steps.

    One query is a race: a task per upstream, all sharing the counters `done` and `total` and
    the flag `won`. The loop thread owns the pending queries and the TCP sessions; the workers
    only count themselves done and post completions. Every function below that changes the
    state is one region the source runs without interference, so a run is any sequence of them. */
module Racing {
  import opened Bytes
  import opened NameCodec

  const MAX_PENDING_QUERIES := 512
  const MAX_TCP_SESSIONS := 32
  const TICK_MS := 100
  const TCP_IDLE_TIMEOUT_MS := 15000
  const MAX_MESSAGE := 65535

  type RaceId = nat
  type SessionId = nat

  datatype Answer = Reply(response: seq<byte>) | Failure

  /** What one query's tasks share, and those tasks sorted by how far they have come: in the
      pool's queue, asking their upstream, holding what it said, and counted as done with what
      they are about to post. `heard` is everything counted so far, `answers` everything handed
      to the client. */
  datatype Race = Race(
    message: seq<byte>,
    total: nat, done: nat, won: bool,
    queued: nat, asking: nat, holding: nat, counted: seq<seq<byte>>,
    heard: seq<seq<byte>>, answers: seq<Answer>)

  datatype Client = Udp | Tcp(session: SessionId)

  datatype Pending = Pending(race: RaceId, client: Client, deadline: nat)

  datatype Completion = Completion(race: RaceId, response: seq<byte>)

  /** One TCP client. `received`, `taken` and `answered` are all the messages its reader completed,
      the races of the queries taken from it and those of the answers handed to it, in order. */
  datatype Session = Session(
    id: SessionId, busy: bool, race: Option<RaceId>, deadline: nat,
    inbox: seq<seq<byte>>, owed: bool, open: bool,
    received: seq<seq<byte>>, taken: seq<RaceId>, answered: seq<RaceId>)

  /** What the loop thread is in the middle of. */
  datatype LoopPhase = Idle | Dispatching(race: RaceId) | Draining | Expiring | Stopped

  datatype State = State(
    now: nat, timeoutMs: nat, phase: LoopPhase,
    races: map<RaceId, Race>, pending: seq<Pending>,
    sessions: seq<Session>, nextSession: SessionId,
    completions: seq<Completion>, batch: seq<Completion>)

  function Start(timeoutMs: nat): State {
    State(0, timeoutMs, Idle, map[], [], [], 0, [], [])
  }

  function NewRace(message: seq<byte>): Race {
    Race(message, 0, 0, false, 0, 0, 0, [], [], [])
  }

  /** Whether `response` answers the query in `message`: same id, same question byte for byte, a
      response to a standard query, not truncated. */
  ghost predicate ValidAnswer(response: seq<byte>, message: seq<byte>) {
    && IsQuery(message)
    && var e := QueryOf(message).questionEnd;
       && |response| >= 12 && 12 <= e <= |message| && e <= |response|
       && response[0] == message[0] && response[1] == message[1]
       && response[2] >= 0x80
       && response[2] / 8 % 16 == 0
       && response[2] / 2 % 2 == 0
       && response[12..e] == message[12..e]
  }

  // ---- Finding things -----------------------------------------------------------------

  function FindPending(pending: seq<Pending>, race: RaceId, from: nat): (i: nat)
    requires from <= |pending|
    ensures from <= i <= |pending|
    ensures i < |pending| ==> pending[i].race == race
    ensures forall j :: from <= j < i ==> pending[j].race != race
    decreases |pending| - from
  {
    if from == |pending| || pending[from].race == race then from else FindPending(pending, race, from + 1)
  }

  function FindSession(sessions: seq<Session>, id: SessionId, from: nat): (i: nat)
    requires from <= |sessions|
    ensures from <= i <= |sessions|
    ensures i < |sessions| ==> sessions[i].id == id
    ensures forall j :: from <= j < i ==> sessions[j].id != id
    decreases |sessions| - from
  {
    if from == |sessions| || sessions[from].id == id then from else FindSession(sessions, id, from + 1)
  }

  function RemoveAt<T>(s: seq<T>, i: nat): (r: seq<T>)
    requires i < |s|
    ensures |r| == |s| - 1
    ensures forall j :: 0 <= j < i ==> r[j] == s[j]
    ensures forall j :: i <= j < |r| ==> r[j] == s[j + 1]
  {
    s[..i] + s[i + 1..]
  }

  // ---- Delivery -----------------------------------------------------------------------

  /** An answer a 16-bit length prefix can describe. */
  predicate Framable(answer: Answer) {
    answer.Reply? ==> 1 <= |answer.response| <= MAX_MESSAGE
  }

  function AnswerSession(t: Session, race: RaceId, answer: Answer, now: nat): Session {
    var freed := t.(busy := false, race := None, answered := t.answered + [race]);
    if Framable(answer) then freed.(owed := true, deadline := now + TCP_IDLE_TIMEOUT_MS)
    else freed.(open := false)
  }

  /** Hand `answer` to the client that asked; a TCP client that has gone is skipped. */
  function Deliver(s: State, p: Pending, answer: Answer): State
    requires p.race in s.races
  {
    var race := s.races[p.race];
    var told := s.(races := s.races[p.race := race.(answers := race.answers + [answer])]);
    if p.client.Udp? then told
    else
      var i := FindSession(s.sessions, p.client.session, 0);
      if i == |s.sessions| then told
      else told.(sessions := s.sessions[i := AnswerSession(s.sessions[i], p.race, answer, s.now)])
  }

  /** Mark the race won, hand over the answer, and forget the query. */
  function Settle(s: State, i: nat, answer: Answer): State
    requires i < |s.pending| && s.pending[i].race in s.races
  {
    var p := s.pending[i];
    var won := s.(races := s.races[p.race := s.races[p.race].(won := true)]);
    Deliver(won, p, answer).(pending := RemoveAt(s.pending, i))
  }

  // ---- Intake --------------------------------------------------------------------------

  /** A UDP query, with `r` the race made for it. Past the cap it is answered SERVFAIL at once. */
  function Arrive(s: State, r: RaceId, message: seq<byte>): State
    requires r !in s.races
  {
    if |s.pending| >= MAX_PENDING_QUERIES then
      s.(races := s.races[r := NewRace(message).(answers := [Failure])])
    else
      s.(races := s.races[r := NewRace(message)],
         pending := s.pending + [Pending(r, Udp, s.now + s.timeoutMs + TICK_MS)],
         phase := Dispatching(r))
  }

  /** One upstream is asked for, if the pool took it. */
  function Submit(s: State, accepted: bool): State
    requires s.phase.Dispatching? && s.phase.race in s.races
  {
    var race := s.races[s.phase.race];
    if accepted then s.(races := s.races[s.phase.race := race.(total := race.total + 1, queued := race.queued + 1)])
    else s
  }

  /** All upstreams have been tried; a race no task was accepted for is failed right away. */
  function EndDispatch(s: State): State
    requires s.phase.Dispatching? && s.phase.race in s.races
  {
    var posted := if s.races[s.phase.race].total == 0 then s.completions + [Completion(s.phase.race, [])]
      else s.completions;
    s.(phase := Idle, completions := posted)
  }

  // ---- TCP sessions ---------------------------------------------------------------------

  /** The idle session with the earliest deadline from `from` on, or `best`. */
  function LongestIdle(sessions: seq<Session>, from: nat, best: nat): (victim: nat)
    requires from <= |sessions| && best <= |sessions| && (best < |sessions| ==> !sessions[best].busy)
    ensures victim <= |sessions| && (victim < |sessions| ==> !sessions[victim].busy)
    decreases |sessions| - from
  {
    if from == |sessions| then best
    else if !sessions[from].busy && (best == |sessions| || sessions[from].deadline < sessions[best].deadline)
    then LongestIdle(sessions, from + 1, from)
    else LongestIdle(sessions, from + 1, best)
  }

  function Admitted(s: State): State {
    var newcomer := Session(s.nextSession, false, None, s.now + TCP_IDLE_TIMEOUT_MS, [], false, true, [], [], []);
    s.(sessions := s.sessions + [newcomer], nextSession := s.nextSession + 1)
  }

  function Drop(s: State, i: nat): State
    requires i < |s.sessions|
  {
    s.(sessions := RemoveAt(s.sessions, i))
  }

  /** A client there is room for comes in if its socket can be prepared. */
  function Welcomed(s: State, prepared: bool): State {
    if prepared then Admitted(s) else s
  }

  /** A new client; at the cap the longest-idle session makes room, and busy ones never do. */
  function Accept(s: State, prepared: bool): State {
    if |s.sessions| < MAX_TCP_SESSIONS then Welcomed(s, prepared)
    else
      var victim := LongestIdle(s.sessions, 0, |s.sessions|);
      if victim == |s.sessions| then s else Welcomed(Drop(s, victim), prepared)
  }

  /** The first well-formed query in the inbox, or its length. */
  ghost function FirstQuery(inbox: seq<seq<byte>>, from: nat): (i: nat)
    requires from <= |inbox|
    ensures from <= i <= |inbox|
    ensures i < |inbox| ==> IsQuery(inbox[i])
    decreases |inbox| - from
  {
    if from == |inbox| || IsQuery(inbox[from]) then from else FirstQuery(inbox, from + 1)
  }

  /** Take the next well-formed query from an idle session and enter it as race `r`. */
  ghost function Service(s: State, i: nat, r: RaceId): State
    requires i < |s.sessions| && r !in s.races
  {
    var t := s.sessions[i];
    if t.busy then s
    else
      var k := FirstQuery(t.inbox, 0);
      if k == |t.inbox| then s.(sessions := s.sessions[i := t.(inbox := [])])
      else
        var deadline := s.now + s.timeoutMs + TICK_MS;
        var taken := t.(busy := true, race := Some(r), deadline := deadline, inbox := t.inbox[k + 1..],
                        taken := t.taken + [r]);
        s.(races := s.races[r := NewRace(t.inbox[k])],
           sessions := s.sessions[i := taken],
           pending := s.pending + [Pending(r, Tcp(t.id), deadline)],
           phase := Dispatching(r))
  }

  /** The session `i` with what its reader holds, or what it owes, brought up to date. */
  function Buffered(s: State, i: nat, messages: seq<seq<byte>>): State
    requires i < |s.sessions|
  {
    var t := s.sessions[i];
    s.(sessions := s.sessions[i := t.(inbox := t.inbox + messages, received := t.received + messages,
                                            deadline := s.now + TCP_IDLE_TIMEOUT_MS)])
  }

  function Flushed(s: State, i: nat): State
    requires i < |s.sessions|
  {
    var t := s.sessions[i];
    s.(sessions := s.sessions[i := t.(owed := false, deadline := s.now + TCP_IDLE_TIMEOUT_MS)])
  }

  /** Bytes from the client completed `messages`. Only a session with nothing owed is read. */
  ghost function Receive(s: State, i: nat, messages: seq<seq<byte>>, r: RaceId): State
    requires i < |s.sessions| && r !in s.races
  {
    Service(Buffered(s, i, messages), i, r)
  }

  /** The answer owed is written out, and the next query can be taken. */
  ghost function Written(s: State, i: nat, r: RaceId): State
    requires i < |s.sessions| && r !in s.races
  {
    Service(Flushed(s, i), i, r)
  }

  function ExpireSessions(s: State, i: nat): State
    requires i <= |s.sessions|
    decreases |s.sessions| - i
  {
    if i == |s.sessions| then s
    else if s.now < s.sessions[i].deadline then ExpireSessions(s, i + 1)
    else ExpireSessions(Drop(s, i), i)
  }

  // ---- Harvesting ------------------------------------------------------------------------

  function TakeBatch(s: State): State {
    s.(phase := Draining, batch := s.completions, completions := [])
  }

  /** One completion of the batch. */
  ghost function Collect(s: State): State
    requires s.batch != []
  {
    var c, rest := s.batch[0], s.(batch := s.batch[1..]);
    var i := FindPending(s.pending, c.race, 0);
    if i == |s.pending| || c.race !in s.races then rest
    else
      var race := s.races[c.race];
      if !race.won && c.response != [] && ValidAnswer(c.response, race.message) then Settle(rest, i, Reply(c.response))
      else if !race.won && race.done >= race.total then Settle(rest, i, Failure)
      else rest
  }

  /** Queries past their deadline, from the `i`th on: failed unless already answered. */
  function ExpireQueries(s: State, i: nat): State
    requires i <= |s.pending| && forall p :: p in s.pending ==> p.race in s.races
    decreases |s.pending| - i
  {
    if i == |s.pending| then s
    else if s.now < s.pending[i].deadline then ExpireQueries(s, i + 1)
    else
      var next := ExpireOne(s, i);
      ExpireQueries(next, i)
  }

  function ExpireOne(s: State, i: nat): (next: State)
    requires i < |s.pending| && forall p :: p in s.pending ==> p.race in s.races
    ensures next.now == s.now && next.pending == RemoveAt(s.pending, i) && next.races.Keys == s.races.Keys
    ensures forall p :: p in next.pending ==> p.race in next.races
  {
    var p := s.pending[i];
    var answered := if s.races[p.race].won then s.(pending := RemoveAt(s.pending, i)) else Settle(s, i, Failure);
    if p.client.Udp? then answered
    else
      var j := FindSession(answered.sessions, p.client.session, 0);
      if j == |answered.sessions| then answered
      else
        var t := answered.sessions[j];
        answered.(sessions := answered.sessions[j :=
          t.(busy := false, race := None, deadline := s.now + TCP_IDLE_TIMEOUT_MS)])
  }

  // ---- Workers ----------------------------------------------------------------------------

  /** A worker takes a task; a race already won is not worth asking for. */
  function StartTask(s: State, r: RaceId): State
    requires r in s.races && s.races[r].queued > 0
  {
    var race := s.races[r];
    var taken := race.(queued := race.queued - 1);
    s.(races := s.races[r := if race.won then taken.(holding := race.holding + 1)
                        else taken.(asking := race.asking + 1)])
  }

  function UpstreamReturns(s: State, r: RaceId): State
    requires r in s.races && s.races[r].asking > 0
  {
    var race := s.races[r];
    s.(races := s.races[r := race.(asking := race.asking - 1, holding := race.holding + 1)])
  }

  /** A worker counts its task done, with `response` what it is about to post. */
  function CountTask(s: State, r: RaceId, response: seq<byte>): State
    requires r in s.races && s.races[r].holding > 0
  {
    var race := s.races[r];
    s.(races := s.races[r := race.(holding := race.holding - 1, done := race.done + 1,
                                   counted := race.counted + [response], heard := race.heard + [response])])
  }

  function PostTask(s: State, r: RaceId, i: nat): State
    requires r in s.races && i < |s.races[r].counted|
  {
    var race := s.races[r];
    s.(races := s.races[r := race.(counted := RemoveAt(race.counted, i))],
       completions := s.completions + [Completion(r, race.counted[i])])
  }

  // ---- Runs ---------------------------------------------------------------------------------

  datatype Event =
    | Tick(ms: nat)
    | ArriveE(r: RaceId, message: seq<byte>)
    | SubmitE(accepted: bool)
    | EndDispatchE
    | AcceptE(prepared: bool)
    | ReceiveE(session: nat, messages: seq<seq<byte>>, r: RaceId)
    | WrittenE(session: nat, r: RaceId)
    | DropE(session: nat)
    | TakeBatchE
    | CollectE
    | ExpireQueriesE
    | ExpireSessionsE
    | StartTaskE(r: RaceId)
    | ReturnE(r: RaceId)
    | CountE(r: RaceId, response: seq<byte>)
    | PostE(r: RaceId, i: nat)
    | StopE

  ghost predicate Enabled(s: State, e: Event) {
    match e
    case Tick(ms) => true
    case ArriveE(r, message) => s.phase.Idle? && r !in s.races && IsQuery(message)
    case SubmitE(accepted) => s.phase.Dispatching? && s.phase.race in s.races
    case EndDispatchE => s.phase.Dispatching? && s.phase.race in s.races
    case AcceptE(prepared) => s.phase.Idle?
    case ReceiveE(i, messages, r) => s.phase.Idle? && i < |s.sessions| && !s.sessions[i].owed && r !in s.races
    case WrittenE(i, r) => s.phase.Idle? && i < |s.sessions| && s.sessions[i].owed && r !in s.races
    case DropE(i) => s.phase.Idle? && i < |s.sessions|
    case TakeBatchE => s.phase.Idle?
    case CollectE => s.phase.Draining? && s.batch != []
    case ExpireSessionsE => s.phase.Expiring?
    case ExpireQueriesE => s.phase.Draining? && s.batch == [] && forall p :: p in s.pending ==> p.race in s.races
    case StartTaskE(r) => r in s.races && s.races[r].queued > 0
    case ReturnE(r) => r in s.races && s.races[r].asking > 0
    case CountE(r, response) => r in s.races && s.races[r].holding > 0
    case PostE(r, i) => r in s.races && i < |s.races[r].counted|
    case StopE => s.phase.Idle?
  }

  ghost function Apply(s: State, e: Event): State
    requires Enabled(s, e)
  {
    match e
    case Tick(ms) => s.(now := s.now + ms)
    case ArriveE(r, message) => Arrive(s, r, message)
    case SubmitE(accepted) => Submit(s, accepted)
    case EndDispatchE => EndDispatch(s)
    case AcceptE(prepared) => Accept(s, prepared)
    case ReceiveE(i, messages, r) => Receive(s, i, messages, r)
    case WrittenE(i, r) => Written(s, i, r)
    case DropE(i) => Drop(s, i)
    case TakeBatchE => TakeBatch(s)
    case CollectE => Collect(s)
    case ExpireQueriesE => ExpireQueries(s, 0).(phase := Expiring)
    case ExpireSessionsE => ExpireSessions(s, 0).(phase := Idle)
    case StartTaskE(r) => StartTask(s, r)
    case ReturnE(r) => UpstreamReturns(s, r)
    case CountE(r, response) => CountTask(s, r, response)
    case PostE(r, i) => PostTask(s, r, i)
    case StopE => s.(phase := Stopped)
  }

  ghost predicate IsRun(s: State, events: seq<Event>)
    decreases |events|
  {
    events == [] || (Enabled(s, events[0]) && IsRun(Apply(s, events[0]), events[1..]))
  }

  ghost function After(s: State, events: seq<Event>): State
    requires IsRun(s, events)
    decreases |events|
  {
    if events == [] then s else After(Apply(s, events[0]), events[1..])
  }
}
