/** The whole server as a state machine (src/datagram.c, src/session.c): TCP connections, the session table
    and the descriptors held, through every pass of the main loop. */
module Server {
  import opened Endian
  import opened Listing
  import opened Handles
  import opened Paging
  import opened FileCommands
  import opened Auth
  import opened Commands
  import opened Protocol
  import opened Ownership
  import opened Sessions
  import Status

  const MAX_CONNS := 4096
  const CONN_TIMEOUT := 600

  /** One connection slot; fd 0 means free. */
  datatype Conn = Conn(fd: nat, ip: U32, contact: int)

  datatype World = World(clients: Slist, conns: seq<Conn>, dirs: set<nat>, files: set<nat>)

  const START := World(seq(MAX_SESSIONS, _ => None), seq(MAX_CONNS, _ => Conn(0, 0, 0)), {}, {})

  // ---------- Connections ----------

  function ConnIndex(conns: seq<Conn>, fd: nat, i: nat): (r: nat)
    requires i <= |conns|
    ensures i <= r <= |conns|
    ensures r < |conns| ==> conns[r].fd == fd
    ensures forall k :: i <= k < r ==> conns[k].fd != fd
    decreases |conns| - i
  {
    if i == |conns| || conns[i].fd == fd then i else ConnIndex(conns, fd, i + 1)
  }

  /** The connection part of tcp_accept: without a free slot the new descriptor is closed again. */
  function Accept(w: World, fd: nat, ip: U32, now: int): World {
    var i := ConnIndex(w.conns, 0, 0);
    if i < |w.conns| then w.(conns := w.conns[i := Conn(fd, ip, now)]) else w
  }

  predicate StaleConn(c: Conn, now: int) {
    c.fd != 0 && now - c.contact > CONN_TIMEOUT
  }

  function StaleFds(conns: seq<Conn>, now: int): set<nat> {
    set i | 0 <= i < |conns| && StaleConn(conns[i], now) :: conns[i].fd
  }

  /** tnfs_close_stale_connections. */
  function CloseStale(w: World, now: int): World {
    w.(clients := Unbound(w.clients, StaleFds(w.conns, now)),
       conns := seq(|w.conns|, i requires 0 <= i < |w.conns| =>
                    if StaleConn(w.conns[i], now) then w.conns[i].(fd := 0) else w.conns[i]))
  }

  /** tnfs_close_tcp. */
  function CloseConn(w: World, i: nat): World
    requires i < |w.conns|
  {
    w.(clients := Unbound(w.clients, {w.conns[i].fd}), conns := w.conns[i := w.conns[i].(fd := 0)])
  }

  /** tnfs_mark_tcp_dead. */
  function MarkDead(conns: seq<Conn>, fd: nat): (r: seq<Conn>)
    ensures |r| == |conns|
  {
    if fd == 0 then conns
    else
      var i := ConnIndex(conns, fd, 0);
      if i < |conns| then conns[i := conns[i].(contact := 0)] else conns
  }

  // ---------- What sessions hold ----------

  function Streams(e: Option<Client>): set<nat> {
    match e case None => {} case Some(c) => Held(c.session.state.slots)
  }

  function Descriptors(e: Option<Client>): set<nat> {
    match e case None => {} case Some(c) => HeldFiles(c.session.state.files)
  }

  function StreamSets(t: Slist): (r: seq<set<nat>>)
    ensures |r| == |t| && forall i :: 0 <= i < |t| ==> r[i] == Streams(t[i])
  {
    seq(|t|, i requires 0 <= i < |t| => Streams(t[i]))
  }

  function DescriptorSets(t: Slist): (r: seq<set<nat>>)
    ensures |r| == |t| && forall i :: 0 <= i < |t| ==> r[i] == Descriptors(t[i])
  {
    seq(|t|, i requires 0 <= i < |t| => Descriptors(t[i]))
  }

  /** The sessions of t missing from rest were freed: everything they held is closed, nothing else. */
  function Freeing(w: World, rest: Slist): World {
    w.(clients := rest,
       dirs := w.dirs - Lost(StreamSets(w.clients), StreamSets(rest)),
       files := w.files - Lost(DescriptorSets(w.clients), DescriptorSets(rest)))
  }

  /** tnfs_expire_sessions. */
  function Expire(w: World, now: int): World {
    Freeing(w, WithoutExpired(w.clients, now, |w.clients|))
  }

  // ---------- One message ----------

  /** A message as the decoder reads it: a header of four bytes and the data. UDP datagrams shorter than a
      header are dropped before. A TCP message of any size is decoded: of one shorter than a header, the rest
      of the header and of what the handlers read is whatever the receive buffer held, so any bytes here. */
  type Packet = b: seq<U8> | |b| >= 4 witness [0, 0, 0, 0]

  /** A message, where it comes from, and what the server meets while handling it. */
  datatype Arrival = Arrival(ip: U32, bytes: Packet, env: Env, mount: MountEnv, sendOk: bool) {
    function Sid(): U16 { FromLe16(bytes[..2]) }
    function Seqno(): U8 { bytes[2] }
    function Cmd(): U8 { bytes[3] }
    function Data(): seq<U8> { bytes[4..] }
    function Req(): Request
      requires Cmd() != 0
    {
      Request(Cmd(), Data())
    }
  }

  /** The world afterwards, the datagrams sent, and the calls made for the session. */
  datatype Handled = Handled(world: World, sent: seq<seq<U8>>, calls: seq<OsCall>)

  /** The client after its request reached it: contact renewed, bound to the connection it came on. */
  function Reached(c: Client, fd: nat, now: int): Client {
    c.(contact := now, fd := fd)
  }

  /** A request that names session i. */
  ghost function ToSession(cfg: Config, w: World, i: nat, fd: nat, a: Arrival): Handled
    requires i < |w.clients| && w.clients[i].Some? && a.Cmd() != 0
  {
    var c := Reached(w.clients[i].value, fd, a.env.now);
    var d := Serve(cfg, Some(c.session), a.Seqno(), a.Req(), a.env);
    match d.session
    case None => Handled(Freeing(w, w.clients[i := None]), d.sent, d.calls)
    case Some(s) =>
      Handled(w.(clients := w.clients[i := Some(c.(session := s))],
                 dirs := (w.dirs - Held(c.session.state.slots)) + Held(s.state.slots),
                 files := (w.files - HeldFiles(c.session.state.files)) + HeldFiles(s.state.files)), d.sent, d.calls)
  }

  /** The session a message works on, when it names one of its own address. */
  function Addressed(cfg: Config, w: World, a: Arrival): Option<nat> {
    var i := FindSid(w.clients, a.Sid(), 0);
    if CmdAllowed(cfg.settings.readOnly, a.Cmd()) && a.Cmd() != 0 && i < |w.clients| && w.clients[i].value.ip == a.ip
    then Some(i) else None
  }

  /** tnfs_decode up to the sending of the reply. */
  ghost function Decode(cfg: Config, w: World, fd: nat, a: Arrival): (h: Handled)
    ensures h.world.conns == w.conns
  {
    if !CmdAllowed(cfg.settings.readOnly, a.Cmd()) then
      Handled(w, [Message(0, a.Seqno(), a.Cmd(), Status.EPERM, [])], [])
    else if a.Cmd() == 0 then
      var m := Mount(w.clients, a.Seqno(), a.Data(), a.ip, fd, a.mount.(served := cfg.root));
      Handled(Freeing(w, m.rest).(clients := m.table), m.sent, [])
    else if FindSid(w.clients, a.Sid(), 0) == |w.clients| then Handled(w, Unanswered(cfg, a.Seqno(), a.Req()).sent, [])
    else
      match Addressed(cfg, w, a)
      case None => Handled(w, [], [])
      case Some(i) => ToSession(cfg, w, i, fd, a)
  }

  /** tnfs_decode with the send: a connection that did not take the whole reply is marked dead. */
  ghost function Respond(cfg: Config, w: World, fd: nat, a: Arrival): World {
    var h := Decode(cfg, w, fd, a);
    if h.sent != [] && !a.sendOk then h.world.(conns := MarkDead(h.world.conns, fd)) else h.world
  }

  // ---------- One pass of the loop ----------

  /** What recv() on a connection yields: nothing more, or a message. */
  datatype Received = Gone(at: int) | Got(at: int, arrival: Arrival)

  /** tnfs_handle_tcpmsg on slot i. */
  ghost function TcpMessage(cfg: Config, w: World, i: nat, r: Received): World
    requires i < |w.conns|
  {
    var v := w.(conns := w.conns[i := w.conns[i].(contact := r.at)]);
    match r
    case Gone(_) => CloseConn(v, i)
    case Got(_, a) => Respond(cfg, v, v.conns[i].fd, a.(ip := v.conns[i].ip))
  }

  /** What is ready on each slot. */
  type Incoming = t: seq<Option<Received>> | |t| == MAX_CONNS witness seq(MAX_CONNS, _ => None)

  /** What one pass of the main loop meets: the time, whether the sweep is due, a datagram, a new
      connection, and what is ready on the slots. */
  datatype Input = Input(now: int, sweep: bool, udp: Option<Arrival>, accepted: Option<(nat, U32, int)>, tcp: Incoming)

  ghost function Slots(cfg: Config, w: World, tcp: Incoming, i: nat): (v: World)
    requires i <= |tcp| && |w.conns| == MAX_CONNS
    ensures |v.conns| == |w.conns|
    decreases |tcp| - i
  {
    if i == |tcp| then w
    else Slots(cfg, Turn(cfg, w, tcp, i), tcp, i + 1)
  }

  /** The turn of slot i in a pass. */
  ghost function Turn(cfg: Config, w: World, tcp: Incoming, i: nat): (v: World)
    requires i < |tcp| && |w.conns| == MAX_CONNS
    ensures |v.conns| == |w.conns|
  {
    if w.conns[i].fd != 0 && tcp[i].Some? then TcpMessage(cfg, w, i, tcp[i].value) else w
  }

  /** The start of a pass: stale connections, then the sweep. */
  function Swept(w: World, x: Input): World {
    var v := CloseStale(w, x.now);
    if x.sweep then Expire(v, x.now) else v
  }

  ghost function WithDatagram(cfg: Config, w: World, x: Input): World {
    if x.udp.Some? then Respond(cfg, w, 0, x.udp.value) else w
  }

  function WithAccepted(w: World, x: Input): World {
    if x.accepted.Some? then Accept(w, x.accepted.value.0, x.accepted.value.1, x.accepted.value.2) else w
  }

  /** What the slots are scanned in. */
  ghost function BeforeSlots(cfg: Config, w: World, x: Input): (v: World)
    ensures |v.conns| == |w.conns|
  {
    WithAccepted(WithDatagram(cfg, Swept(w, x), x), x)
  }

  ghost function Pass(cfg: Config, w: World, x: Input): (v: World)
    requires |w.conns| == MAX_CONNS
    ensures |v.conns| == MAX_CONNS
  {
    Slots(cfg, BeforeSlots(cfg, w, x), x.tcp, 0)
  }

  /** The end of the main loop: all connections closed, then all sessions freed. */
  function Shutdown(w: World): World {
    var fds := set i | 0 <= i < |w.conns| && w.conns[i].fd != 0 :: w.conns[i].fd;
    var v := w.(clients := Unbound(w.clients, fds),
        conns := seq(|w.conns|, i requires 0 <= i < |w.conns| => w.conns[i].(fd := 0)));
    Freeing(v, seq(|v.clients|, _ => None))
  }
}
