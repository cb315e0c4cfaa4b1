/** Every socket is closed exactly once, and by whom it belongs to. */
module SocketSafety {
  import opened Bytes
  import opened SocketOwnership

  predicate NoRepeats(sockets: seq<Sock>) {
    forall i, j :: 0 <= i < j < |sockets| ==> sockets[i] != sockets[j]
  }

  predicate IsOpen(s: State, sock: Sock) {
    sock.value in s.open && s.open[sock.value] == sock.serial
  }

  /** `sock` is open and its owner on record is `owner`. */
  predicate Belongs(s: State, sock: Sock, owner: Owner) {
    IsOpen(s, sock) && sock.serial in s.owner && s.owner[sock.serial] == owner
  }

  /** The owner on record really has the socket in hand. */
  predicate InHand(s: State, sock: Sock, owner: Owner) {
    match owner
    case ByHandle(h) => h in s.handles && (s.handles[h].closing == Some(sock) ||
                                           (s.handles[h].socket == Some(sock) && s.handles[h].token.None?))
    case ByToken(t) => t in s.tokens && sock in s.tokens[t].sockets
    case ByCancel(k) => k in s.cancels && s.cancels[k].Dooming? && sock in s.cancels[k].doomed
  }

  predicate HandleSound(s: State, h: HandleId)
    requires h in s.handles
  {
    var handle := s.handles[h];
    && (handle.closing.Some? ==>
        handle.socket.None? && handle.token.None? && Belongs(s, handle.closing.value, ByHandle(h)))
    && (handle.socket.Some? && handle.token.None? ==> Belongs(s, handle.socket.value, ByHandle(h)))
    && (handle.socket.Some? ==> handle.socket.value.serial < s.nextSerial)
    && (handle.socket.Some? && handle.token.Some? ==>
          && handle.token.value in s.tokens
          && var token := s.tokens[handle.token.value];
             handle.socket.value in token.sockets || (token.cancelled && token.sockets == []))
  }

  ghost predicate TokenSound(s: State, t: TokenId)
    requires t in s.tokens
  {
    var token := s.tokens[t];
    && NoRepeats(token.sockets)
    && (forall sock :: sock in token.sockets ==> Belongs(s, sock, ByToken(t)))
    && (token.cancelled && token.sockets != [] ==> exists k :: k in s.cancels && s.cancels[k] == Flagged(t))
  }

  ghost predicate CancelSound(s: State, k: CancelId)
    requires k in s.cancels
  {
    var call := s.cancels[k];
    && call.token in s.tokens && s.tokens[call.token].cancelled
    && (call.Dooming? ==>
        NoRepeats(call.doomed) && forall sock :: sock in call.doomed ==> Belongs(s, sock, ByCancel(k)))
  }

  ghost predicate OpenSound(s: State, v: Value)
    requires v in s.open
  {
    && s.open[v] < s.nextSerial
    && s.open[v] in s.owner && InHand(s, Sock(v, s.open[v]), s.owner[s.open[v]])
  }

  predicate IsOpenSerial(s: State, n: Serial) {
    exists v :: v in s.open && s.open[v] == n
  }

  /** Every serial number given out is open or was closed exactly once. */
  ghost predicate Counted(s: State) {
    forall n: Serial :: s.closed[n] == (if n < s.nextSerial && !IsOpenSerial(s, n) then 1 else 0)
  }

  ghost predicate SerialsDistinct(s: State) {
    forall v, w :: v in s.open && w in s.open && s.open[v] == s.open[w] ==> v == w
  }

  /** No two handles hold the same socket. */
  ghost predicate HandlesDistinct(s: State) {
    forall g, h :: g in s.handles && h in s.handles && g != h && s.handles[g].socket.Some? ==>
      s.handles[g].socket != s.handles[h].socket
  }

  ghost predicate Sound(s: State) {
    && !s.bad && SerialsDistinct(s) && HandlesDistinct(s)
    && (forall h :: h in s.handles ==> HandleSound(s, h))
    && (forall t :: t in s.tokens ==> TokenSound(s, t))
    && (forall k :: k in s.cancels ==> CancelSound(s, k))
    && (forall v :: v in s.open ==> OpenSound(s, v))
  }

  // ---- Steps ----------------------------------------------------------------------------------

  lemma OthersStayOpen(s: State, gone: Sock, sock: Sock, owner: Owner)
    requires IsOpen(s, gone) && Belongs(s, sock, owner) && sock != gone
    ensures Belongs(CloseSocket(s, gone), sock, owner) && !CloseSocket(s, gone).bad == !s.bad
  {
  }

  lemma OpenKeeps(s: State, h: HandleId, value: Value)
    requires Sound(s) && HandleOf(s, h) == EMPTY && value !in s.open
    ensures Sound(Open(s, h, value))
  {
    var t := Open(s, h, value);
    forall sock, o | Belongs(s, sock, o) ensures Belongs(t, sock, o) { assert OpenSound(s, sock.value); }
    forall g | g in t.handles ensures HandleSound(t, g) { if g != h { assert HandleSound(s, g); } }
    forall q | q in t.tokens ensures TokenSound(t, q) { assert TokenSound(s, q); }
    forall k | k in t.cancels ensures CancelSound(t, k) { assert CancelSound(s, k); }
    forall v | v in t.open ensures OpenSound(t, v) { if v != value { assert OpenSound(s, v); } }
  }

  lemma NewTokenKeeps(s: State, q: TokenId)
    requires Sound(s) && q !in s.tokens
    ensures Sound(NewToken(s, q))
  {
    var t := NewToken(s, q);
    forall g | g in t.handles ensures HandleSound(t, g) { assert HandleSound(s, g); }
    forall r | r in t.tokens ensures TokenSound(t, r) { if r != q { assert TokenSound(s, r); } }
    forall k | k in t.cancels ensures CancelSound(t, k) { assert CancelSound(s, k); }
    forall v | v in t.open ensures OpenSound(t, v) { assert OpenSound(s, v); }
  }

  /** A handle that owns its socket closes it and is left empty. */
  lemma HandleCloses(s: State, t: State, h: HandleId, sock: Sock)
    requires Sound(s) && h in s.handles
    requires Belongs(s, sock, ByHandle(h))
    requires s.handles[h].closing == Some(sock) || (s.handles[h].socket == Some(sock) && s.handles[h].token.None?)
    requires t == CloseSocket(s, sock).(handles := s.handles[h := EMPTY])
    ensures Sound(t)
  {
    assert HandleSound(s, h);
    forall other, o | Belongs(s, other, o) && other != sock ensures Belongs(t, other, o) {
      OthersStayOpen(s, sock, other, o);
    }
    forall g | g in t.handles ensures HandleSound(t, g) { if g != h { assert HandleSound(s, g); } }
    forall q | q in t.tokens ensures TokenSound(t, q) { assert TokenSound(s, q); }
    forall k | k in t.cancels ensures CancelSound(t, k) { assert CancelSound(s, k); }
    forall v | v in t.open ensures OpenSound(t, v) { assert OpenSound(s, v); }
  }

  /** One socket changes owner; everyone else's still belongs to them. */
  lemma HandsOver(s: State, t: State, sock: Sock, before: Owner, after: Owner)
    requires SerialsDistinct(s) && Belongs(s, sock, before) && t.open == s.open
    requires t.owner == s.owner[sock.serial := after]
    ensures Belongs(t, sock, after)
    ensures forall other, o :: Belongs(s, other, o) && other != sock ==> Belongs(t, other, o)
  {
    forall other, o | Belongs(s, other, o) && other != sock ensures Belongs(t, other, o) {
      assert other.serial == sock.serial ==> other.value == sock.value;
    }
  }

  lemma RegisterKeeps(s: State, h: HandleId, q: TokenId)
    requires Sound(s) && Enabled(s, RegisterE(h, q))
    ensures Sound(Register(s, h, q))
  {
    assert HandleSound(s, h) && TokenSound(s, q);
    var sock, t := s.handles[h].socket.value, Register(s, h, q);
    if s.tokens[q].cancelled {
      HandleCloses(s, t, h, sock);
    } else {
      HandsOver(s, t, sock, ByHandle(h), ByToken(q));
      assert sock !in s.tokens[q].sockets;
      forall g | g in t.handles ensures HandleSound(t, g) { if g != h { assert HandleSound(s, g); } }
      forall r | r in t.tokens ensures TokenSound(t, r) { assert TokenSound(s, r); }
      forall k | k in t.cancels ensures CancelSound(t, k) { assert CancelSound(s, k); }
      forall v | v in t.open ensures OpenSound(t, v) { assert OpenSound(s, v); }
    }
  }

  /** A handle that owns its socket is moved into an empty one. */
  lemma OwnedMoves(s: State, from: HandleId, to: HandleId)
    requires Sound(s) && Enabled(s, MoveE(from, to)) && s.handles[from].socket.Some? && s.handles[from].token.None?
    ensures Sound(Move(s, from, to))
  {
    var t, handle := Move(s, from, to), s.handles[from];
    assert HandleSound(s, from);
    HandsOver(s, t, handle.socket.value, ByHandle(from), ByHandle(to));
    forall g | g in t.handles ensures HandleSound(t, g) { if g != from && g != to { assert HandleSound(s, g); } }
    forall r | r in t.tokens ensures TokenSound(t, r) { assert TokenSound(s, r); }
    forall k | k in t.cancels ensures CancelSound(t, k) { assert CancelSound(s, k); }
    forall v | v in t.open ensures OpenSound(t, v) { assert OpenSound(s, v); }
  }

  lemma RegisteredMoves(s: State, from: HandleId, to: HandleId)
    requires Sound(s) && Enabled(s, MoveE(from, to)) && (s.handles[from].socket.Some? ==> s.handles[from].token.Some?)
    ensures Sound(Move(s, from, to))
  {
    var t := Move(s, from, to);
    assert t == s.(handles := s.handles[from := EMPTY][to := s.handles[from]]);
    assert HandleSound(s, from);
    forall g, h | g in t.handles && h in t.handles && g != h && t.handles[g].socket.Some?
      ensures t.handles[g].socket != t.handles[h].socket {
      var g', h' := (if g == to then from else g), if h == to then from else h;
      assert t.handles[g] == s.handles[g'] && (t.handles[h] == EMPTY || t.handles[h] == s.handles[h']);
    }
    forall g | g in t.handles ensures HandleSound(t, g) { if g != from && g != to { assert HandleSound(s, g); } }
    forall r | r in t.tokens ensures TokenSound(t, r) { assert TokenSound(s, r); }
    forall k | k in t.cancels ensures CancelSound(t, k) { assert CancelSound(s, k); }
    forall v | v in t.open ensures OpenSound(t, v) { assert OpenSound(s, v); }
  }

  lemma MoveKeeps(s: State, from: HandleId, to: HandleId)
    requires Sound(s) && Enabled(s, MoveE(from, to))
    ensures Sound(Move(s, from, to))
  {
    if s.handles[from].socket.Some? && s.handles[from].token.None? {
      OwnedMoves(s, from, to);
    } else {
      RegisteredMoves(s, from, to);
    }
  }

  /** What a token gives back under a value is the very socket its handle registered. */
  lemma ReleasesItsOwn(s: State, h: HandleId)
    requires Sound(s) && h in s.handles && s.handles[h].socket.Some? && s.handles[h].token.Some?
    ensures s.handles[h].token.value in s.tokens
    ensures var sock, sockets := s.handles[h].socket.value, s.tokens[s.handles[h].token.value].sockets;
            var i := IndexOf(sockets, sock.value, 0);
            if i < |sockets| then sockets[i] == sock else sock !in sockets
  {
    assert HandleSound(s, h) && TokenSound(s, s.handles[h].token.value);
    var sock, sockets := s.handles[h].socket.value, s.tokens[s.handles[h].token.value].sockets;
    var i := IndexOf(sockets, sock.value, 0);
    if i < |sockets| { assert Belongs(s, sockets[i], ByToken(s.handles[h].token.value)); }
  }

  lemma WithoutIs(sockets: seq<Sock>, i: nat)
    requires NoRepeats(sockets) && i < |sockets|
    ensures NoRepeats(Without(sockets, i))
    ensures forall sock :: sock in Without(sockets, i) <==> sock in sockets && sock != sockets[i]
  {
    var rest := Without(sockets, i);
    forall j | 0 <= j < |rest| ensures rest[j] == sockets[if j < i then j else j + 1] {}
    forall sock | sock in sockets && sock != sockets[i] ensures sock in rest {
      var j :| 0 <= j < |sockets| && sockets[j] == sock;
      assert rest[if j < i then j else j - 1] == sock;
    }
  }

  /** The handle takes its socket back from the token. */
  lemma TakenBack(s: State, h: HandleId, t: State, q: TokenId, i: nat)
    requires Sound(s) && h in s.handles && q in s.tokens && i < |s.tokens[q].sockets|
    requires s.handles[h].socket == Some(s.tokens[q].sockets[i]) && s.handles[h].token == Some(q)
    requires s.handles[h].closing.None?
    requires var sock := s.tokens[q].sockets[i];
             t == s.(tokens := s.tokens[q := s.tokens[q].(sockets := Without(s.tokens[q].sockets, i))],
                     handles := s.handles[h := Handle(None, None, Some(sock))],
                     owner := s.owner[sock.serial := ByHandle(h)])
    ensures Sound(t)
  {
    var sock := s.tokens[q].sockets[i];
    assert HandleSound(s, h) && TokenSound(s, q);
    WithoutIs(s.tokens[q].sockets, i);
    HandsOver(s, t, sock, ByToken(q), ByHandle(h));
    forall g | g in t.handles ensures HandleSound(t, g) { if g != h { assert HandleSound(s, g); } }
    forall r | r in t.tokens ensures TokenSound(t, r) { assert TokenSound(s, r); }
    forall k | k in t.cancels ensures CancelSound(t, k) { assert CancelSound(s, k); }
    forall v | v in t.open ensures OpenSound(t, v) { assert OpenSound(s, v); }
  }

  /** A handle lets go of a socket that is not its own to close. */
  lemma LetsGo(s: State, h: HandleId)
    requires Sound(s) && h in s.handles && s.handles[h].closing.None?
    requires s.handles[h].socket.Some? ==> s.handles[h].token.Some?
    ensures Sound(s.(handles := s.handles[h := EMPTY]))
  {
    var t := s.(handles := s.handles[h := EMPTY]);
    forall g | g in t.handles ensures HandleSound(t, g) { if g != h { assert HandleSound(s, g); } }
    forall r | r in t.tokens ensures TokenSound(t, r) { assert TokenSound(s, r); }
    forall k | k in t.cancels ensures CancelSound(t, k) { assert CancelSound(s, k); }
    forall v | v in t.open ensures OpenSound(t, v) { assert OpenSound(s, v); }
  }

  /** A handle keeps its own socket to close it next. */
  lemma SetsAside(s: State, h: HandleId)
    requires Sound(s) && h in s.handles && s.handles[h].closing.None? && s.handles[h].socket.Some?
    requires s.handles[h].token.None?
    ensures Sound(s.(handles := s.handles[h := Handle(None, None, s.handles[h].socket)]))
  {
    var t := s.(handles := s.handles[h := Handle(None, None, s.handles[h].socket)]);
    assert HandleSound(s, h);
    forall g | g in t.handles ensures HandleSound(t, g) { if g != h { assert HandleSound(s, g); } }
    forall r | r in t.tokens ensures TokenSound(t, r) { assert TokenSound(s, r); }
    forall k | k in t.cancels ensures CancelSound(t, k) { assert CancelSound(s, k); }
    forall v | v in t.open ensures OpenSound(t, v) { assert OpenSound(s, v); }
  }

  lemma BeginCloseKeeps(s: State, h: HandleId)
    requires Sound(s) && Enabled(s, BeginCloseE(h))
    ensures Sound(BeginClose(s, h))
  {
    var handle := s.handles[h];
    if handle.socket.None? {
      LetsGo(s, h);
    } else if handle.token.None? {
      SetsAside(s, h);
    } else {
      ReleasesItsOwn(s, h);
      var sockets := s.tokens[handle.token.value].sockets;
      var i := IndexOf(sockets, handle.socket.value.value, 0);
      if i < |sockets| { TakenBack(s, h, BeginClose(s, h), handle.token.value, i); } else { LetsGo(s, h); }
    }
  }

  lemma BeginCancelKeeps(s: State, k: CancelId, q: TokenId)
    requires Sound(s) && Enabled(s, BeginCancelE(k, q))
    ensures Sound(BeginCancel(s, k, q))
  {
    var t := BeginCancel(s, k, q);
    forall g | g in t.handles ensures HandleSound(t, g) { assert HandleSound(s, g); }
    forall r | r in t.tokens ensures TokenSound(t, r) {
      assert TokenSound(s, r);
      assert t.cancels[k] == Flagged(q);
      if r != q && s.tokens[r].cancelled && s.tokens[r].sockets != [] {
        var j :| j in s.cancels && s.cancels[j] == Flagged(r);
        assert t.cancels[j] == Flagged(r);
      }
    }
    forall j | j in t.cancels ensures CancelSound(t, j) { if j != k { assert CancelSound(s, j); } }
    forall v | v in t.open ensures OpenSound(t, v) { assert OpenSound(s, v); }
  }

  lemma DoomKeeps(s: State, k: CancelId)
    requires Sound(s) && Enabled(s, DoomE(k))
    ensures Sound(Doom(s, k))
  {
    var t, q := Doom(s, k), s.cancels[k].token;
    assert CancelSound(s, k) && TokenSound(s, q);
    forall sock, o | Belongs(s, sock, o) ensures Belongs(t, sock, if o == ByToken(q) then ByCancel(k) else o) {}
    forall g | g in t.handles ensures HandleSound(t, g) { assert HandleSound(s, g); }
    forall r | r in t.tokens ensures TokenSound(t, r) {
      assert TokenSound(s, r);
      if r != q && s.tokens[r].cancelled && s.tokens[r].sockets != [] {
        var j :| j in s.cancels && s.cancels[j] == Flagged(r);
        assert t.cancels[j] == Flagged(r);
      }
    }
    forall j | j in t.cancels ensures CancelSound(t, j) { assert CancelSound(s, j); }
    forall v | v in t.open ensures OpenSound(t, v) { assert OpenSound(s, v); }
  }

  lemma DoomedIsOpen(s: State, k: CancelId)
    requires Sound(s) && k in s.cancels && s.cancels[k].Dooming? && s.cancels[k].doomed != []
    ensures Belongs(s, s.cancels[k].doomed[0], ByCancel(k)) && s.cancels[k].doomed[0].serial < s.nextSerial
  {
    var sock := s.cancels[k].doomed[0];
    assert CancelSound(s, k) && sock in s.cancels[k].doomed;
    assert OpenSound(s, sock.value);
  }

  lemma CloseDoomedKeeps(s: State, k: CancelId)
    requires Sound(s) && Enabled(s, CloseDoomedE(k))
    ensures Sound(CloseDoomed(s, k))
  {
    var t, doomed := CloseDoomed(s, k), s.cancels[k].doomed;
    DoomedIsOpen(s, k);
    forall sock | sock in doomed[1..] ensures sock in doomed && sock != doomed[0] {}
    forall other, o | Belongs(s, other, o) && other != doomed[0] ensures Belongs(t, other, o) {
      OthersStayOpen(s, doomed[0], other, o);
    }
    forall g | g in t.handles ensures HandleSound(t, g) { assert HandleSound(s, g); }
    forall r | r in t.tokens ensures TokenSound(t, r) {
      assert TokenSound(s, r);
      if s.tokens[r].cancelled && s.tokens[r].sockets != [] {
        var j :| j in s.cancels && s.cancels[j] == Flagged(r);
        assert t.cancels[j] == Flagged(r);
      }
    }
    forall j | j in t.cancels ensures CancelSound(t, j) { assert CancelSound(s, j); }
    forall v | v in t.open ensures OpenSound(t, v) { assert OpenSound(s, v); }
  }

  lemma FinishCloseKeeps(s: State, h: HandleId)
    requires Sound(s) && Enabled(s, FinishCloseE(h))
    ensures Sound(FinishClose(s, h))
  {
    assert HandleSound(s, h);
    HandleCloses(s, FinishClose(s, h), h, s.handles[h].closing.value);
  }

  lemma StepKeeps(s: State, e: Event)
    requires Sound(s) && Enabled(s, e)
    ensures Sound(Apply(s, e))
  {
    match e
    case OpenE(h, value) => OpenKeeps(s, h, value);
    case NewTokenE(t) => NewTokenKeeps(s, t);
    case RegisterE(h, t) => RegisterKeeps(s, h, t);
    case MoveE(from, to) => MoveKeeps(s, from, to);
    case BeginCloseE(h) => BeginCloseKeeps(s, h);
    case FinishCloseE(h) => FinishCloseKeeps(s, h);
    case BeginCancelE(k, t) => BeginCancelKeeps(s, k, t);
    case DoomE(k) => DoomKeeps(s, k);
    case CloseDoomedE(k) => CloseDoomedKeeps(s, k);
  }

  // ---- Counting -------------------------------------------------------------------------------

  lemma ClosingCounts(s: State, sock: Sock)
    requires Counted(s) && SerialsDistinct(s) && IsOpen(s, sock) && sock.serial < s.nextSerial
    ensures Counted(CloseSocket(s, sock))
  {
    var t := CloseSocket(s, sock);
    forall n: Serial ensures IsOpenSerial(t, n) <==> IsOpenSerial(s, n) && n != sock.serial {
      if IsOpenSerial(s, n) && n != sock.serial {
        var v :| v in s.open && s.open[v] == n;
        assert v in t.open;
      }
    }
    assert IsOpenSerial(s, sock.serial);
  }

  lemma OpeningCounts(s: State, h: HandleId, value: Value)
    requires Counted(s) && value !in s.open && (forall v :: v in s.open ==> s.open[v] < s.nextSerial)
    ensures Counted(Open(s, h, value))
  {
    var t := Open(s, h, value);
    assert t.open[value] == s.nextSerial;
    forall n: Serial ensures IsOpenSerial(t, n) <==> IsOpenSerial(s, n) || n == s.nextSerial {
      if v :| v in s.open && s.open[v] == n { assert t.open[v] == n; }
    }
  }

  lemma StepCounts(s: State, e: Event)
    requires Sound(s) && Counted(s) && Enabled(s, e)
    ensures Counted(Apply(s, e))
  {
    var t := Apply(s, e);
    forall v | v in s.open ensures s.open[v] < s.nextSerial { assert OpenSound(s, v); }
    if e.OpenE? {
      OpeningCounts(s, e.h, e.value);
    } else if e.RegisterE? && s.tokens[e.t].cancelled {
      assert HandleSound(s, e.h);
      ClosingCounts(s, s.handles[e.h].socket.value);
      SameOpen(CloseSocket(s, s.handles[e.h].socket.value), t);
    } else if e.FinishCloseE? {
      assert HandleSound(s, e.h);
      ClosingCounts(s, s.handles[e.h].closing.value);
      SameOpen(CloseSocket(s, s.handles[e.h].closing.value), t);
    } else if e.CloseDoomedE? {
      DoomedIsOpen(s, e.k);
      ClosingCounts(s, s.cancels[e.k].doomed[0]);
      SameOpen(CloseSocket(s, s.cancels[e.k].doomed[0]), t);
    } else {
      SameOpen(s, t);
    }
  }

  lemma SameOpen(s: State, t: State)
    requires Counted(s) && t.open == s.open && t.closed == s.closed && t.nextSerial == s.nextSerial
    ensures Counted(t)
  {
    forall n: Serial ensures IsOpenSerial(t, n) <==> IsOpenSerial(s, n) {}
  }

  lemma {:induction false} RunKeeps(s: State, events: seq<Event>)
    requires Sound(s) && Counted(s) && IsRun(s, events)
    ensures Sound(After(s, events)) && Counted(After(s, events))
    decreases |events|
  {
    if events != [] {
      StepKeeps(s, events[0]);
      StepCounts(s, events[0]);
      RunKeeps(Apply(s, events[0]), events[1..]);
    }
  }

  // ---- What it means --------------------------------------------------------------------------

  /** In every run every close hits the socket it was meant for, and each socket ever opened is
      either still open or was closed exactly once. */
  lemma ClosedExactlyOnce(events: seq<Event>)
    requires IsRun(START, events)
    ensures var s := After(START, events);
            && !s.bad
            && (forall n: Serial :: n < s.nextSerial ==> s.closed[n] == if IsOpenSerial(s, n) then 0 else 1)
            && (forall v :: v in s.open ==> s.open[v] < s.nextSerial)
  {
    var s := After(START, events);
    RunKeeps(START, events);
    forall v | v in s.open ensures s.open[v] < s.nextSerial { assert OpenSound(s, v); }
  }

  lemma CancelledIsEmptied(s: State, t: TokenId)
    requires Sound(s) && t in s.tokens && s.tokens[t].cancelled
    ensures s.tokens[t].sockets == [] || exists k :: k in s.cancels && s.cancels[k] == Flagged(t)
  {
    assert TokenSound(s, t);
  }

  lemma OpenIsInHand(s: State, v: Value)
    requires Sound(s)
    ensures v in s.open ==> exists owner :: InHand(s, Sock(v, s.open[v]), owner)
  {
    if v in s.open { assert OpenSound(s, v); }
  }

  /** Every handle is empty, every token cancelled and every Cancel over. */
  ghost predicate AtRest(s: State) {
    && (forall h :: h in s.handles ==> s.handles[h] == EMPTY)
    && (forall t :: t in s.tokens ==> s.tokens[t].cancelled)
    && (forall k :: k in s.cancels ==> s.cancels[k].Dooming? && s.cancels[k].doomed == [])
  }

  lemma NoneInHand(s: State, v: Value)
    requires Sound(s) && AtRest(s)
    ensures v !in s.open
  {
    OpenIsInHand(s, v);
    forall t | t in s.tokens ensures s.tokens[t].sockets == [] { CancelledIsEmptied(s, t); }
  }

  /** Once the handles and the tokens are gone, nothing is left open. */
  lemma NothingIsLeftOpen(events: seq<Event>)
    requires IsRun(START, events) && AtRest(After(START, events))
    ensures var s := After(START, events);
            s.open == map[] && forall n: Serial :: n < s.nextSerial ==> s.closed[n] == 1
  {
    var s := After(START, events);
    RunKeeps(START, events);
    forall v ensures v !in s.open { NoneInHand(s, v); }
    forall n: Serial ensures !IsOpenSerial(s, n) {}
  }
}
