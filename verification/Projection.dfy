/** What one session sees of a whole run of the server (src/datagram.c, src/session.c): the requests that
    reach it, served one after the other, whatever other clients do in between. */
module Projection {
  import opened Endian
  import opened Listing
  import opened Auth
  import opened Commands
  import opened Protocol
  import opened Sessions
  import opened Server
  import opened Runs

  predicate Occupied(t: Slist, i: nat) {
    i < |t| && t[i].Some?
  }

  /** The part of a run that concerns one session: the requests that reached it, the address each came from,
      what the server sent for each, and the calls it made for them. */
  datatype Part = Part(heard: seq<Datagram>, from: seq<U32>, sent: seq<seq<seq<U8>>>, calls: seq<OsCall>)

  const NOTHING := Part([], [], [], [])

  function Both(p: Part, q: Part): Part {
    Part(p.heard + q.heard, p.from + q.from, p.sent + q.sent, p.calls + q.calls)
  }

  /** From t to u the session of entry i went on by exactly these requests, with these datagrams and calls. */
  ghost predicate Follows(cfg: Config, t: Slist, p: Part, u: Slist, i: nat) {
    && Occupied(t, i) && Occupied(u, i)
    && ServeAll(cfg, Some(t[i].value.session), p.heard) == Total(Some(u[i].value.session), p.sent, p.calls)
    && u[i].value.ip == t[i].value.ip && |p.from| == |p.heard|
    && forall k :: 0 <= k < |p.from| ==> p.from[k] == t[i].value.ip
  }

  lemma FollowsChain(cfg: Config, t: Slist, p: Part, u: Slist, q: Part, v: Slist, i: nat)
    requires Follows(cfg, t, p, u, i) && Follows(cfg, u, q, v, i)
    ensures Follows(cfg, t, Both(p, q), v, i)
  {
    hide ServeAll;
    ServeAllJoins(cfg, Some(t[i].value.session), p.heard, q.heard);
  }

  lemma FollowsNothing(cfg: Config, t: Slist, u: Slist, i: nat)
    requires Occupied(t, i) && Occupied(u, i)
    requires u[i].value.session == t[i].value.session && u[i].value.ip == t[i].value.ip
    ensures Follows(cfg, t, NOTHING, u, i)
  {
  }

  // ---------- One message ----------

  /** What a message brings to entry i, if it does. */
  ghost function MessagePart(cfg: Config, w: World, fd: nat, a: Arrival, i: nat): Part {
    if Addressed(cfg, w, a) == Some(i) then
      var h := Decode(cfg, w, fd, a);
      Part([Datagram(a.Seqno(), a.Req(), a.env)], [a.ip], [h.sent], h.calls)
    else NOTHING
  }

  /** The message does not free the session of entry i, by UMOUNT or by a MOUNT that recycles or expires it. */
  ghost predicate Spares(cfg: Config, w: World, fd: nat, a: Arrival, i: nat) {
    && Occupied(Decode(cfg, w, fd, a).world.clients, i)
    && (CmdAllowed(cfg.settings.readOnly, a.Cmd()) && a.Cmd() == 0 ==>
          Occupied(Mount(w.clients, a.Seqno(), a.Data(), a.ip, fd, a.mount.(served := cfg.root)).rest, i))
  }

  lemma MessageServes(cfg: Config, w: World, fd: nat, a: Arrival, i: nat)
    requires Occupied(w.clients, i) && Spares(cfg, w, fd, a, i)
    ensures Follows(cfg, w.clients, MessagePart(cfg, w, fd, a, i), Respond(cfg, w, fd, a).clients, i)
  {
    hide Mount, Serve, ServeAll, Freeing, SessionOk, Streams, Descriptors, FindSid;
    var s := w.clients[i].value.session;
    var after := Decode(cfg, w, fd, a).world.clients;
    NothingServed(cfg, Some(s));
    if CmdAllowed(cfg.settings.readOnly, a.Cmd()) && a.Cmd() == 0 {
      var m := Mount(w.clients, a.Seqno(), a.Data(), a.ip, fd, a.mount.(served := cfg.root));
      MountShape(cfg, w.clients, a.Seqno(), a.Data(), a.ip, fd, a.mount.(served := cfg.root));
      assert after == m.table;
    } else if Addressed(cfg, w, a).Some? {
      var j := Addressed(cfg, w, a).value;
      FreeingShape(w, w.clients[j := None]);
      ServeOne(cfg, Some(Reached(w.clients[j].value, fd, a.env.now).session), Datagram(a.Seqno(), a.Req(), a.env));
    }
  }

  lemma NothingServed(cfg: Config, o: Option<Session>)
    ensures ServeAll(cfg, o, []) == Total(o, [], [])
  {
  }

  lemma ServeOne(cfg: Config, o: Option<Session>, d: Datagram)
    ensures var r := Serve(cfg, o, d.seqno, d.req, d.env);
      ServeAll(cfg, o, [d]) == Total(r.session, [r.sent], r.calls)
  {
    hide Serve;
    ServeFirst(cfg, o, d, []);
    assert [d] + [] == [d];
  }

  // ---------- The slots of a pass ----------

  ghost function TurnPart(cfg: Config, w: World, tcp: Incoming, k: nat, i: nat): Part
    requires k < |tcp| && |w.conns| == MAX_CONNS
  {
    if w.conns[k].fd != 0 && tcp[k].Some? && tcp[k].value.Got? then
      MessagePart(cfg, w.(conns := w.conns[k := w.conns[k].(contact := tcp[k].value.at)]), w.conns[k].fd,
          tcp[k].value.arrival.(ip := w.conns[k].ip), i)
    else NOTHING
  }

  ghost predicate TurnSpares(cfg: Config, w: World, tcp: Incoming, k: nat, i: nat)
    requires k < |tcp| && |w.conns| == MAX_CONNS
  {
    w.conns[k].fd != 0 && tcp[k].Some? && tcp[k].value.Got? ==>
      Spares(cfg, w.(conns := w.conns[k := w.conns[k].(contact := tcp[k].value.at)]), w.conns[k].fd,
          tcp[k].value.arrival.(ip := w.conns[k].ip), i)
  }

  lemma TurnServes(cfg: Config, w: World, tcp: Incoming, k: nat, i: nat)
    requires k < |tcp| && |w.conns| == MAX_CONNS && Occupied(w.clients, i) && TurnSpares(cfg, w, tcp, k, i)
    ensures Follows(cfg, w.clients, TurnPart(cfg, w, tcp, k, i), Turn(cfg, w, tcp, k).clients, i)
  {
    hide Spares, MessagePart, Respond, Follows, ServeAll;
    if w.conns[k].fd != 0 && tcp[k].Some? {
      var v := w.(conns := w.conns[k := w.conns[k].(contact := tcp[k].value.at)]);
      match tcp[k].value
      case Gone(_) => FollowsNothing(cfg, w.clients, CloseConn(v, k).clients, i);
      case Got(_, a) => MessageServes(cfg, v, v.conns[k].fd, a.(ip := v.conns[k].ip), i);
    } else {
      FollowsNothing(cfg, w.clients, w.clients, i);
    }
  }

  ghost function SlotsPart(cfg: Config, w: World, tcp: Incoming, k: nat, i: nat): Part
    requires k <= |tcp| && |w.conns| == MAX_CONNS
    decreases |tcp| - k
  {
    if k == |tcp| then NOTHING
    else Both(TurnPart(cfg, w, tcp, k, i), SlotsPart(cfg, Turn(cfg, w, tcp, k), tcp, k + 1, i))
  }

  ghost predicate SlotsSpare(cfg: Config, w: World, tcp: Incoming, k: nat, i: nat)
    requires k <= |tcp| && |w.conns| == MAX_CONNS
    decreases |tcp| - k
  {
    k == |tcp| || (TurnSpares(cfg, w, tcp, k, i) && SlotsSpare(cfg, Turn(cfg, w, tcp, k), tcp, k + 1, i))
  }

  lemma {:induction false} SlotsServe(cfg: Config, w: World, tcp: Incoming, k: nat, i: nat)
    requires k <= |tcp| && |w.conns| == MAX_CONNS && Occupied(w.clients, i) && SlotsSpare(cfg, w, tcp, k, i)
    ensures Follows(cfg, w.clients, SlotsPart(cfg, w, tcp, k, i), Slots(cfg, w, tcp, k).clients, i)
    decreases |tcp| - k
  {
    hide Turn, TurnPart, TurnSpares, Follows;
    if k == |tcp| {
      FollowsNothing(cfg, w.clients, w.clients, i);
    } else {
      var v := Turn(cfg, w, tcp, k);
      TurnServes(cfg, w, tcp, k, i);
      FollowsOccupied(cfg, w.clients, TurnPart(cfg, w, tcp, k, i), v.clients, i);
      SlotsServe(cfg, v, tcp, k + 1, i);
      FollowsChain(cfg, w.clients, TurnPart(cfg, w, tcp, k, i), v.clients, SlotsPart(cfg, v, tcp, k + 1, i),
          Slots(cfg, v, tcp, k + 1).clients, i);
    }
  }

  lemma FollowsOccupied(cfg: Config, t: Slist, p: Part, u: Slist, i: nat)
    requires Follows(cfg, t, p, u, i)
    ensures Occupied(u, i)
  {
  }

  // ---------- Passes and runs ----------

  /** The requests that reach entry i in one pass, in order. */
  ghost function PassPart(cfg: Config, w: World, x: Input, i: nat): Part
    requires |w.conns| == MAX_CONNS
  {
    var datagram := if x.udp.Some? then MessagePart(cfg, Swept(w, x), 0, x.udp.value, i) else NOTHING;
    Both(datagram, SlotsPart(cfg, BeforeSlots(cfg, w, x), x.tcp, 0, i))
  }

  /** The session of entry i lives through the pass: it neither expires nor is recycled or unmounted. */
  ghost predicate PassSpares(cfg: Config, w: World, x: Input, i: nat)
    requires |w.conns| == MAX_CONNS
  {
    && Occupied(Swept(w, x).clients, i)
    && (x.udp.Some? ==> Spares(cfg, Swept(w, x), 0, x.udp.value, i))
    && SlotsSpare(cfg, BeforeSlots(cfg, w, x), x.tcp, 0, i)
  }

  lemma SweptFollows(cfg: Config, w: World, x: Input, i: nat)
    requires Occupied(w.clients, i) && Occupied(Swept(w, x).clients, i)
    ensures Follows(cfg, w.clients, NOTHING, Swept(w, x).clients, i)
  {
    hide ServeAll;
    NothingServed(cfg, Some(w.clients[i].value.session));
  }

  lemma PassServes(cfg: Config, w: World, x: Input, i: nat)
    requires |w.conns| == MAX_CONNS && Occupied(w.clients, i) && PassSpares(cfg, w, x, i)
    ensures Follows(cfg, w.clients, PassPart(cfg, w, x, i), Pass(cfg, w, x).clients, i)
  {
    hide Swept, Spares, SlotsSpare, SlotsPart, MessagePart, Respond, Follows, Slots;
    var v := Swept(w, x);
    var part := if x.udp.Some? then MessagePart(cfg, v, 0, x.udp.value, i) else NOTHING;
    var u := BeforeSlots(cfg, w, x);
    SweptFollows(cfg, w, x, i);
    if x.udp.Some? {
      MessageServes(cfg, v, 0, x.udp.value, i);
    } else {
      FollowsNothing(cfg, v.clients, v.clients, i);
    }
    assert u.clients == WithDatagram(cfg, v, x).clients;
    FollowsChain(cfg, w.clients, NOTHING, v.clients, part, u.clients, i);
    assert Both(NOTHING, part) == part;
    FollowsOccupied(cfg, w.clients, part, u.clients, i);
    SlotsServe(cfg, u, x.tcp, 0, i);
    FollowsChain(cfg, w.clients, part, u.clients, SlotsPart(cfg, u, x.tcp, 0, i), Pass(cfg, w, x).clients, i);
  }

  ghost function RunPart(cfg: Config, w: World, xs: seq<Input>, i: nat): Part
    requires |w.conns| == MAX_CONNS
    decreases |xs|
  {
    if xs == [] then NOTHING else Both(PassPart(cfg, w, xs[0], i), RunPart(cfg, Pass(cfg, w, xs[0]), xs[1..], i))
  }

  ghost predicate RunSpares(cfg: Config, w: World, xs: seq<Input>, i: nat)
    requires |w.conns| == MAX_CONNS
    decreases |xs|
  {
    xs == [] || (PassSpares(cfg, w, xs[0], i) && RunSpares(cfg, Pass(cfg, w, xs[0]), xs[1..], i))
  }

  /** However many other clients mount, unmount, expire and send requests in between: as long as a session
      lives, it goes through exactly the requests that reach it, served one after the other, and all of them
      come from its own address. */
  lemma {:induction false} RunServes(cfg: Config, w: World, xs: seq<Input>, i: nat)
    requires |w.conns| == MAX_CONNS && Occupied(w.clients, i) && RunSpares(cfg, w, xs, i)
    ensures Follows(cfg, w.clients, RunPart(cfg, w, xs, i), Run(cfg, w, xs).clients, i)
    decreases |xs|
  {
    hide Pass, PassPart, PassSpares, Follows;
    if xs == [] {
      FollowsNothing(cfg, w.clients, w.clients, i);
    } else {
      var v := Pass(cfg, w, xs[0]);
      var part := PassPart(cfg, w, xs[0], i);
      PassServes(cfg, w, xs[0], i);
      FollowsOccupied(cfg, w.clients, part, v.clients, i);
      RunServes(cfg, v, xs[1..], i);
      FollowsChain(cfg, w.clients, part, v.clients, RunPart(cfg, v, xs[1..], i), Run(cfg, v, xs[1..]).clients, i);
    }
  }

  /** Exactly-once execution in the whole server: if what reaches a living session are the arrivals of a
      client over a channel that loses and duplicates, then the session, the calls made for it and the answers
      sent for it in the whole run are those of running each request once. */
  lemma ExactlyOnceInEveryRun(cfg: Config, w: World, xs: seq<Input>, i: nat, seqno: U8, vs: seq<Visit>, quiet: nat)
    requires |w.conns| == MAX_CONNS && Occupied(w.clients, i) && RunSpares(cfg, w, xs, i)
    requires Ready(Some(w.clients[i].value.session), seqno, quiet) && Talks(cfg, vs, quiet)
    requires RunPart(cfg, w, xs, i).heard == Arrivals(seqno, vs)
    ensures Occupied(Run(cfg, w, xs).clients, i)
    ensures var o := Some(w.clients[i].value.session);
      var once := Once(cfg, o, seqno, vs);
      var answers := Channel(cfg, o, seqno, vs).sent;
      && Some(Run(cfg, w, xs).clients[i].value.session) == once.session
      && RunPart(cfg, w, xs, i).calls == once.calls
      && RunPart(cfg, w, xs, i).sent == Flat(answers) && SameAnswers(answers, once.sent, vs, seqno)
  {
    hide RunSpares, RunPart, Run, Ready, Talks, Arrivals, ServeAll, Channel, Once, SameAnswers, Flat;
    var o := Some(w.clients[i].value.session);
    RunServes(cfg, w, xs, i);
    ChannelIsArrivals(cfg, o, seqno, vs);
    ExactlyOnce(cfg, o, seqno, vs, quiet);
  }
}
