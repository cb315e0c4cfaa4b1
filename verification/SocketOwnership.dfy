/** Sockets with two possible closers (src/dns/cancel.cpp, src/dns/socket_utils.h:150-262), as steps
    the threads interleave: a handle closes its socket, or the token it was registered with does.

    The system hands the value of a closed socket out again at once, so each opened socket carries
    a serial number that no code looks at: the code compares values only. */
module SocketOwnership {
  import opened Bytes

  type Value = nat
  type Serial = nat
  type HandleId = nat
  type TokenId = nat
  type CancelId = nat

  datatype Sock = Sock(value: Value, serial: Serial)

  /** A SocketHandle. `closing` is the socket its Close has taken back and is about to close. */
  datatype Handle = Handle(socket: Option<Sock>, token: Option<TokenId>, closing: Option<Sock>)

  const EMPTY := Handle(None, None, None)

  datatype Token = Token(cancelled: bool, sockets: seq<Sock>)

  /** One call of Cancel: the flag is set, then the list is taken, then its sockets are closed. */
  datatype CancelCall = Flagged(token: TokenId) | Dooming(token: TokenId, doomed: seq<Sock>)

  /** Who is to close an open socket; kept for the proof, like the serial numbers. */
  datatype Owner = ByHandle(h: HandleId) | ByToken(t: TokenId) | ByCancel(k: CancelId)

  /** `open` is the system's table; `closed` counts what closesocket closed, and `bad` is set by
      closing a value that is not open or that belongs to a later socket. */
  datatype State = State(
    open: map<Value, Serial>, nextSerial: Serial, closed: multiset<Serial>, bad: bool,
    handles: map<HandleId, Handle>, tokens: map<TokenId, Token>, cancels: map<CancelId, CancelCall>,
    owner: map<Serial, Owner>)

  const START := State(map[], 0, multiset{}, false, map[], map[], map[], map[])

  function CloseSocket(s: State, sock: Sock): State {
    if sock.value !in s.open then s.(bad := true)
    else s.(open := s.open - {sock.value}, closed := s.closed + multiset{s.open[sock.value]},
            bad := s.bad || s.open[sock.value] != sock.serial)
  }

  function IndexOf(sockets: seq<Sock>, value: Value, from: nat): (i: nat)
    requires from <= |sockets|
    ensures from <= i <= |sockets|
    ensures i < |sockets| ==> sockets[i].value == value
    ensures forall j :: from <= j < i ==> sockets[j].value != value
    decreases |sockets| - from
  {
    if from == |sockets| || sockets[from].value == value then from else IndexOf(sockets, value, from + 1)
  }

  function Without(sockets: seq<Sock>, i: nat): seq<Sock>
    requires i < |sockets|
  {
    sockets[..i] + sockets[i + 1..]
  }

  function HandleOf(s: State, h: HandleId): Handle {
    if h in s.handles then s.handles[h] else EMPTY
  }

  // ---- Steps ----------------------------------------------------------------------------------

  /** A socket is opened, with any value not in use, into an empty handle. */
  function Open(s: State, h: HandleId, value: Value): State {
    s.(open := s.open[value := s.nextSerial], nextSerial := s.nextSerial + 1,
       handles := s.handles[h := Handle(Some(Sock(value, s.nextSerial)), None, None)],
       owner := s.owner[s.nextSerial := ByHandle(h)])
  }

  function NewToken(s: State, t: TokenId): State {
    s.(tokens := s.tokens[t := Token(false, [])])
  }

  /** Under the token's lock: one already cancelled closes the socket then and there. */
  function Register(s: State, h: HandleId, t: TokenId): State
    requires h in s.handles && s.handles[h].socket.Some? && t in s.tokens
  {
    var sock := s.handles[h].socket.value;
    if s.tokens[t].cancelled then CloseSocket(s, sock).(handles := s.handles[h := EMPTY])
    else
      s.(tokens := s.tokens[t := s.tokens[t].(sockets := s.tokens[t].sockets + [sock])],
         handles := s.handles[h := s.handles[h].(token := Some(t))],
         owner := s.owner[sock.serial := ByToken(t)])
  }

  function Move(s: State, from: HandleId, to: HandleId): State
    requires from in s.handles
  {
    var handle := s.handles[from];
    var moved := s.(handles := s.handles[from := EMPTY][to := handle]);
    if handle.socket.Some? && handle.token.None?
      then moved.(owner := s.owner[handle.socket.value.serial := ByHandle(to)]) else moved
  }

  /** The first half of Close: the socket is taken back from the token, if it still has it. */
  function BeginClose(s: State, h: HandleId): State
    requires h in s.handles
  {
    var handle := s.handles[h];
    if handle.socket.None? then s.(handles := s.handles[h := handle.(token := None)])
    else
      var sock := handle.socket.value;
      if handle.token.None? then s.(handles := s.handles[h := Handle(None, None, Some(sock))])
      else if handle.token.value !in s.tokens then s.(handles := s.handles[h := EMPTY])
      else
        var token := s.tokens[handle.token.value];
        var i := IndexOf(token.sockets, sock.value, 0);
        if i == |token.sockets| then s.(handles := s.handles[h := EMPTY])
        else
          s.(tokens := s.tokens[handle.token.value := token.(sockets := Without(token.sockets, i))],
             handles := s.handles[h := Handle(None, None, Some(sock))],
             owner := s.owner[sock.serial := ByHandle(h)])
  }

  function FinishClose(s: State, h: HandleId): State
    requires h in s.handles && s.handles[h].closing.Some?
  {
    CloseSocket(s, s.handles[h].closing.value).(handles := s.handles[h := s.handles[h].(closing := None)])
  }

  function BeginCancel(s: State, k: CancelId, t: TokenId): State
    requires t in s.tokens
  {
    s.(tokens := s.tokens[t := s.tokens[t].(cancelled := true)], cancels := s.cancels[k := Flagged(t)])
  }

  function Doom(s: State, k: CancelId): State
    requires k in s.cancels && s.cancels[k].Flagged? && s.cancels[k].token in s.tokens
  {
    var t := s.cancels[k].token;
    var sockets := s.tokens[t].sockets;
    s.(tokens := s.tokens[t := s.tokens[t].(sockets := [])], cancels := s.cancels[k := Dooming(t, sockets)],
       owner := map n | n in s.owner :: if s.owner[n] == ByToken(t) then ByCancel(k) else s.owner[n])
  }

  function CloseDoomed(s: State, k: CancelId): State
    requires k in s.cancels && s.cancels[k].Dooming? && s.cancels[k].doomed != []
  {
    var call := s.cancels[k];
    CloseSocket(s, call.doomed[0]).(cancels := s.cancels[k := call.(doomed := call.doomed[1..])])
  }

  datatype Event =
    | OpenE(h: HandleId, value: Value)
    | NewTokenE(t: TokenId)
    | RegisterE(h: HandleId, t: TokenId)
    | MoveE(from: HandleId, to: HandleId)
    | BeginCloseE(h: HandleId)
    | FinishCloseE(h: HandleId)
    | BeginCancelE(k: CancelId, t: TokenId)
    | DoomE(k: CancelId)
    | CloseDoomedE(k: CancelId)

  predicate Enabled(s: State, e: Event) {
    match e
    case OpenE(h, value) => HandleOf(s, h) == EMPTY && value !in s.open
    case NewTokenE(t) => t !in s.tokens
    case RegisterE(h, t) => h in s.handles && s.handles[h].socket.Some? && s.handles[h].token.None? && t in s.tokens
    case MoveE(from, to) => from in s.handles && s.handles[from].closing.None? && from != to && HandleOf(s, to) == EMPTY
    case BeginCloseE(h) => h in s.handles && s.handles[h].closing.None?
    case FinishCloseE(h) => h in s.handles && s.handles[h].closing.Some?
    case BeginCancelE(k, t) => k !in s.cancels && t in s.tokens
    case DoomE(k) => k in s.cancels && s.cancels[k].Flagged? && s.cancels[k].token in s.tokens
    case CloseDoomedE(k) => k in s.cancels && s.cancels[k].Dooming? && s.cancels[k].doomed != []
  }

  function Apply(s: State, e: Event): State
    requires Enabled(s, e)
  {
    match e
    case OpenE(h, value) => Open(s, h, value)
    case NewTokenE(t) => NewToken(s, t)
    case RegisterE(h, t) => Register(s, h, t)
    case MoveE(from, to) => Move(s, from, to)
    case BeginCloseE(h) => BeginClose(s, h)
    case FinishCloseE(h) => FinishClose(s, h)
    case BeginCancelE(k, t) => BeginCancel(s, k, t)
    case DoomE(k) => Doom(s, k)
    case CloseDoomedE(k) => CloseDoomed(s, k)
  }

  predicate IsRun(s: State, events: seq<Event>)
    decreases |events|
  {
    events == [] || (Enabled(s, events[0]) && IsRun(Apply(s, events[0]), events[1..]))
  }

  function After(s: State, events: seq<Event>): State
    requires IsRun(s, events)
    decreases |events|
  {
    if events == [] then s else After(Apply(s, events[0]), events[1..])
  }

  // ---- The token's own code -------------------------------------------------------------------

  /** The system's table of open sockets. */
  class SystemSockets {
    var open: map<Value, Serial>

    method Close(value: Value)
      modifies this
      ensures open == old(open) - {value}
    {
      open := open - {value};
    }
  }

  function ValuesOf(sockets: seq<Sock>): set<Value> {
    set sock | sock in sockets :: sock.value
  }

  class CancelToken {
    var cancelled: bool
    var sockets: seq<Sock>

    ghost function View(): Token
      reads this
    {
      Token(cancelled, sockets)
    }

    constructor ()
      ensures View() == Token(false, [])
    {
      cancelled, sockets := false, [];
    }

    /** A cancelled token closes the socket then and there and keeps nothing. */
    method Add(sock: Sock, system: SystemSockets) returns (registered: bool)
      modifies this`sockets, system
      ensures registered <==> !cancelled
      ensures sockets == if registered then old(sockets) + [sock] else old(sockets)
      ensures system.open == if registered then old(system.open) else old(system.open) - {sock.value}
    {
      if cancelled {
        system.Close(sock.value);
        return false;
      }
      sockets := sockets + [sock];
      return true;
    }

    method Release(value: Value) returns (released: bool)
      modifies this`sockets
      ensures var i := IndexOf(old(sockets), value, 0);
              && released == (i < |old(sockets)|)
              && sockets == if released then Without(old(sockets), i) else old(sockets)
    {
      var i := 0;
      while i < |sockets| && sockets[i].value != value
        invariant i <= |sockets| && IndexOf(sockets, value, 0) == IndexOf(sockets, value, i)
      {
        i := i + 1;
      }
      if i == |sockets| { return false; }
      sockets := sockets[..i] + sockets[i + 1..];
      return true;
    }

    method Flag()
      modifies this`cancelled
      ensures cancelled
    {
      cancelled := true;
    }

    method TakeAll() returns (doomed: seq<Sock>)
      modifies this`sockets
      ensures doomed == old(sockets) && sockets == []
    {
      doomed := sockets;
      sockets := [];
    }

    /** Close every registered socket; a second call finds none. */
    method Cancel(system: SystemSockets)
      modifies this, system
      ensures View() == Token(true, [])
      ensures system.open == old(system.open) - ValuesOf(old(sockets))
    {
      Flag();
      var doomed := TakeAll();
      var i := 0;
      while i < |doomed|
        invariant 0 <= i <= |doomed| && View() == Token(true, []) && doomed == old(sockets)
        invariant system.open == old(system.open) - ValuesOf(doomed[..i])
      {
        assert doomed[..i + 1] == doomed[..i] + [doomed[i]];
        assert ValuesOf(doomed[..i + 1]) == ValuesOf(doomed[..i]) + {doomed[i].value};
        system.Close(doomed[i].value);
        i := i + 1;
      }
      assert doomed[..i] == doomed;
    }
  }
}
