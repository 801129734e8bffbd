/** The TCP connection slots as src/datagram.c keeps them, updated in place together with the session table. */
module Connections {
  import opened Endian
  import opened Sessions
  import opened Server
  import opened SessionTable

  class TcpConnection {
    var cliFd: nat
    var ip: U32
    var lastContact: int

    constructor ()
      ensures View() == Conn(0, 0, 0)
    {
      cliFd, ip, lastContact := 0, 0, 0;
    }

    ghost function View(): Conn
      reads this
    {
      Conn(cliFd, ip, lastContact)
    }
  }

  class TcpConnections {
    const socks: seq<TcpConnection>

    ghost predicate Valid() {
      |socks| == MAX_CONNS && forall i, j :: 0 <= i < j < |socks| ==> socks[i] != socks[j]
    }

    ghost function View(): (v: seq<Conn>)
      reads socks
      ensures |v| == |socks| && forall i :: 0 <= i < |socks| ==> v[i] == socks[i].View()
    {
      seq(|socks|, i requires 0 <= i < |socks| reads socks => socks[i].View())
    }

    constructor ()
      ensures Valid() && fresh(socks) && View() == seq(MAX_CONNS, _ => Conn(0, 0, 0))
    {
      var cs: seq<TcpConnection> := [];
      while |cs| < MAX_CONNS
        invariant |cs| <= MAX_CONNS && fresh(cs)
        invariant forall i, j :: 0 <= i < j < |cs| ==> cs[i] != cs[j]
        invariant forall i :: 0 <= i < |cs| ==> cs[i].View() == Conn(0, 0, 0)
      {
        var c := new TcpConnection();
        cs := cs + [c];
      }
      socks := cs;
    }

    /** The search of tcp_accept and tnfs_mark_tcp_dead. */
    method Find(fd: nat) returns (i: nat)
      requires Valid()
      ensures i == ConnIndex(View(), fd, 0)
    {
      i := 0;
      while i < |socks| && socks[i].cliFd != fd
        invariant i <= |socks| && ConnIndex(View(), fd, i) == ConnIndex(View(), fd, 0)
      {
        i := i + 1;
      }
    }

    /** tcp_accept once accept() has returned a descriptor; without a free slot the descriptor is closed. */
    method Accepted(fd: nat, ip: U32, now: int, ghost w: World) returns (kept: bool)
      requires Valid() && w.conns == View()
      modifies socks
      ensures Valid() && View() == Accept(w, fd, ip, now).conns
      ensures kept <==> exists i :: 0 <= i < |w.conns| && w.conns[i].fd == 0
    {
      var i := Find(0);
      kept := i < |socks|;
      if kept {
        socks[i].cliFd, socks[i].ip, socks[i].lastContact := fd, ip, now;
      }
    }

    /** tnfs_mark_tcp_dead. */
    method Kill(fd: nat)
      requires Valid()
      modifies socks
      ensures Valid() && View() == MarkDead(old(View()), fd)
    {
      if fd == 0 {
        return;
      }
      var i := Find(fd);
      if i < |socks| {
        socks[i].lastContact := 0;
      }
    }

    /** tnfs_close_tcp: the sessions first, then the slot. */
    method CloseTcp(i: nat, sessions: Table, ghost w: World)
      requires Valid() && sessions.Valid() && i < |socks| && w.conns == View() && w.clients == sessions.View()
      modifies socks, sessions.slist[..]
      ensures Valid() && sessions.Valid()
      ensures var v := CloseConn(w, i); View() == v.conns && sessions.View() == v.clients
    {
      sessions.ResetCliFd(socks[i].cliFd);
      socks[i].cliFd := 0;
    }

    /** tnfs_close_stale_connections. */
    method CloseStaleConnections(now: int, sessions: Table, ghost w: World)
      requires Valid() && sessions.Valid() && w.conns == View() && w.clients == sessions.View()
      modifies socks, sessions.slist[..]
      ensures Valid() && sessions.Valid()
      ensures var v := CloseStale(w, now); View() == v.conns && sessions.View() == v.clients
    {
      for i := 0 to |socks|
        invariant Valid() && sessions.Valid()
        invariant forall j :: 0 <= j < i ==> View()[j] == CloseStale(w, now).conns[j]
        invariant forall j :: i <= j < |socks| ==> View()[j] == w.conns[j]
        invariant sessions.View() == Unbound(w.clients, StaleFds(w.conns[..i], now))
      {
        assert View()[i] == w.conns[i];
        OneMoreStale(w.clients, w.conns, now, i);
        if socks[i].cliFd != 0 {
          if now - socks[i].lastContact > CONN_TIMEOUT {
            CloseTcp(i, sessions, World(sessions.View(), View(), {}, {}));
          }
        }
      }
      assert w.conns[..|socks|] == w.conns;
    }
  }

  lemma OneMoreStale(t: Slist, conns: seq<Conn>, now: int, i: nat)
    requires i < |conns|
    ensures Unbound(t, StaleFds(conns[..i + 1], now))
            == if StaleConn(conns[i], now) then Unbound(Unbound(t, StaleFds(conns[..i], now)), {conns[i].fd})
                else Unbound(t, StaleFds(conns[..i], now))
  {
    var more, less := StaleFds(conns[..i + 1], now), StaleFds(conns[..i], now);
    assert forall k :: 0 <= k < i ==> conns[..i + 1][k] == conns[..i][k];
    forall d
      ensures d in more <==> d in less || (StaleConn(conns[i], now) && d == conns[i].fd)
    {
      if d in less {
        var k :| 0 <= k < i && StaleConn(conns[..i][k], now) && conns[..i][k].fd == d;
        assert StaleConn(conns[..i + 1][k], now);
      }
      if StaleConn(conns[i], now) {
        assert conns[..i + 1][i] == conns[i];
      }
    }
    assert 0 !in less && 0 !in more;
  }
}
