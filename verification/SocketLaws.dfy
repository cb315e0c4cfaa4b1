/** What single steps on sockets do to the socket at hand (src/dns/socket_utils.h:150-262,
    src/dns/cancel.cpp:24-72). */
module SocketLaws {
  import opened Bytes
  import opened SocketOwnership

  /** A new token takes what is registered with it, and leaves it open. */
  lemma NewTokenTakes(s: State, t: TokenId, h: HandleId)
    requires Enabled(s, NewTokenE(t)) && h in s.handles && s.handles[h].socket.Some? && s.handles[h].token.None?
    ensures var u := NewToken(s, t);
            && Enabled(u, RegisterE(h, t))
            && var v := Register(u, h, t);
               && v.open == s.open && v.tokens[t] == Token(false, [s.handles[h].socket.value])
               && v.handles[h] == s.handles[h].(token := Some(t))
  {
    var sock := s.handles[h].socket.value;
    assert [] + [sock] == [sock];
  }

  /** A socket is moved whole, with its token, into another handle that holds none. */
  lemma MovedWhole(s: State, from: HandleId, to: HandleId)
    requires from in s.handles && from != to && s.handles[from].closing.None?
    requires to !in s.handles || s.handles[to] == Handle(None, None, None)
    ensures Enabled(s, MoveE(from, to))
    ensures var t := Move(s, from, to);
            && t.handles[to] == s.handles[from] && t.handles[from] == Handle(None, None, None)
            && t.open == s.open && t.tokens == s.tokens
  {
  }

  /** A close hits the socket it was meant for exactly if its value is open and still that socket's. */
  lemma HitsIff(s: State, sock: Sock)
    ensures CloseSocket(s, sock).bad <==> s.bad || sock.value !in s.open || s.open[sock.value] != sock.serial
    ensures sock.value !in CloseSocket(s, sock).open
  {
  }
}
