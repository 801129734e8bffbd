/** What holds in every state the server can reach (src/datagram.c, src/session.c, src/directory.c,
    src/tnfs_file.c). */
module Runs {
  import opened CStrings
  import opened Endian
  import opened Listing
  import opened DirHandle
  import opened Handles
  import opened Paging
  import opened DirCommands
  import opened FileCommands
  import opened Auth
  import opened Commands
  import opened Protocol
  import opened Ownership
  import opened Sessions
  import opened Server
  import Paths
  import Status

  // ---------- The invariant ----------

  ghost predicate SessionOk(cfg: Config, s: Session) {
    && SavedOk(s) && Namable(s.state) && Sound(s.state, cfg.settings) && Paths.RootChecked(cfg.root, s.state.root)
    && Sourced(s.state.slots, s.state.builds) && AllAsked(s.state.builds)
    && Owns(s.state.slots, Held(s.state.slots)) && OwnsFiles(s.state.files, HeldFiles(s.state.files))
  }

  ghost predicate ClientsOk(cfg: Config, t: Slist) {
    |t| == MAX_SESSIONS && forall i :: 0 <= i < |t| && t[i].Some? ==> SessionOk(cfg, t[i].value.session)
  }

  /** Live connections have different descriptors. */
  predicate ConnsOk(conns: seq<Conn>) {
    |conns| == MAX_CONNS && forall i, j :: 0 <= i < j < |conns| && conns[i].fd != 0 ==> conns[i].fd != conns[j].fd
  }

  predicate Live(conns: seq<Conn>, fd: nat) {
    exists i :: 0 <= i < |conns| && conns[i].fd == fd
  }

  /** Every session bound to a connection is bound to a live one. */
  predicate Bound(t: Slist, conns: seq<Conn>) {
    forall i :: 0 <= i < |t| && t[i].Some? && t[i].value.fd != 0 ==> Live(conns, t[i].value.fd)
  }

  /** Everything open is held by exactly one session. */
  ghost predicate AllHeld(w: World) {
    Exact(StreamSets(w.clients), w.dirs) && Exact(DescriptorSets(w.clients), w.files)
  }

  ghost predicate WorldOk(cfg: Config, w: World) {
    && Distinct(w.clients) && FewPerIp(w.clients) && ClientsOk(cfg, w.clients)
    && ConnsOk(w.conns) && Bound(w.clients, w.conns) && AllHeld(w)
  }

  lemma {:induction false} NoneCounted(t: Slist, ip: U32, n: nat)
    requires n <= |t| && forall i :: 0 <= i < |t| ==> t[i].None?
    ensures CountIp(t, ip, n) == 0
  {
    if n > 0 {
      NoneCounted(t, ip, n - 1);
    }
  }

  lemma StartOk(cfg: Config)
    ensures WorldOk(cfg, START)
  {
    var t := START.clients;
    forall ip: U32
      ensures CountIp(t, ip, |t|) <= MAX_PER_IP
    {
      NoneCounted(t, ip, |t|);
    }
  }

  // ---------- Connections ----------

  lemma SameHoldings(w: World, v: World)
    requires AllHeld(w) && v.clients == w.clients && v.dirs == w.dirs && v.files == w.files
    ensures AllHeld(v)
  {
  }

  /** Assuming accept() returns a descriptor that no connection has. */
  /** A connection that is accepted speaks for its peer: what it sends is handled as from the peer's address and
      answered on its descriptor. */
  lemma AcceptedSpeaksForPeer(cfg: Config, w: World, fd: nat, ip: U32, now: int, at: int, a: Arrival)
    requires exists i :: 0 <= i < |w.conns| && w.conns[i].fd == 0
    ensures var v := Accept(w, fd, ip, now);
      var i := ConnIndex(w.conns, 0, 0);
      && i < |w.conns| == |v.conns| && v.clients == w.clients && v == w.(conns := v.conns)
      && (forall j :: 0 <= j < |w.conns| && j != i ==> v.conns[j] == w.conns[j])
      && v.conns[i] == Conn(fd, ip, now)
      && TcpMessage(cfg, v, i, Got(at, a))
          == Respond(cfg, v.(conns := v.conns[i := Conn(fd, ip, at)]), fd, a.(ip := ip))
  {
    hide Respond;
  }

  /** A pass gives a connection that was accepted a slot before it looks at what the slots received. */
  lemma PassAccepts(cfg: Config, w: World, x: Input)
    requires |w.conns| == MAX_CONNS && x.accepted.Some? && exists i :: 0 <= i < |w.conns| && w.conns[i].fd == 0
    ensures var (fd, ip, now) := x.accepted.value;
      exists i :: 0 <= i < |BeforeSlots(cfg, w, x).conns| && BeforeSlots(cfg, w, x).conns[i] == Conn(fd, ip, now)
  {
    hide Decode;
    var i :| 0 <= i < |w.conns| && w.conns[i].fd == 0;
    var v := WithDatagram(cfg, Swept(w, x), x);
    assert Swept(w, x).conns[i].fd == 0;
    assert v.conns[i].fd == 0;
    var j := ConnIndex(v.conns, 0, 0);
    assert BeforeSlots(cfg, w, x).conns[j] == Conn(x.accepted.value.0, x.accepted.value.1, x.accepted.value.2);
  }

  lemma AcceptKeeps(cfg: Config, w: World, fd: nat, ip: U32, now: int)
    requires WorldOk(cfg, w) && fd != 0 && !Live(w.conns, fd)
    ensures WorldOk(cfg, Accept(w, fd, ip, now))
  {
    hide Distinct, FewPerIp, ClientsOk, AllHeld;
    var i := ConnIndex(w.conns, 0, 0);
    if i < |w.conns| {
      var after := w.conns[i := Conn(fd, ip, now)];
      forall d: nat | d != 0 && Live(w.conns, d)
        ensures Live(after, d)
      {
        var j :| 0 <= j < |w.conns| && w.conns[j].fd == d;
        assert after[j].fd == d;
      }
      SameHoldings(w, Accept(w, fd, ip, now));
    }
  }

  /** Clearing the connection of some sessions changes nothing else about them. */
  lemma UnboundKeeps(cfg: Config, w: World, fds: set<nat>)
    requires WorldOk(cfg, w)
    ensures var t := Unbound(w.clients, fds);
        Distinct(t) && FewPerIp(t) && ClientsOk(cfg, t) && AllHeld(w.(clients := t))
  {
    hide FewPerIp, SessionOk, Exact;
    var t := Unbound(w.clients, fds);
    ThinnerKeeps(w.clients, t);
    assert StreamSets(t) == StreamSets(w.clients);
    assert DescriptorSets(t) == DescriptorSets(w.clients);
  }

  lemma CloseStaleKeeps(cfg: Config, w: World, now: int)
    requires WorldOk(cfg, w)
    ensures WorldOk(cfg, CloseStale(w, now))
  {
    UnboundKeeps(cfg, w, StaleFds(w.conns, now));
    hide Distinct, FewPerIp, ClientsOk, AllHeld;
    var v := CloseStale(w, now);
    forall i | 0 <= i < |v.clients| && v.clients[i].Some? && v.clients[i].value.fd != 0
      ensures Live(v.conns, v.clients[i].value.fd)
    {
      var j :| 0 <= j < |w.conns| && w.conns[j].fd == v.clients[i].value.fd;
      assert v.conns[j].fd == v.clients[i].value.fd;
    }
  }

  /** Closing a connection leaves no session bound to it. */
  lemma CloseConnKeeps(cfg: Config, w: World, i: nat)
    requires WorldOk(cfg, w) && i < |w.conns| && w.conns[i].fd != 0
    ensures var v := CloseConn(w, i);
      WorldOk(cfg, v) && !Live(v.conns, w.conns[i].fd) && forall k :: 0 <= k < |v.clients| && v.clients[k].Some? ==>
          v.clients[k].value.fd != w.conns[i].fd
  {
    UnboundKeeps(cfg, w, {w.conns[i].fd});
    hide Distinct, FewPerIp, ClientsOk, AllHeld;
    var v := CloseConn(w, i);
    forall k | 0 <= k < |v.clients| && v.clients[k].Some? && v.clients[k].value.fd != 0
      ensures Live(v.conns, v.clients[k].value.fd)
    {
      var j :| 0 <= j < |w.conns| && w.conns[j].fd == v.clients[k].value.fd;
      assert v.conns[j].fd == v.clients[k].value.fd;
    }
  }

  /** Changing contact times and addresses of connections. */
  lemma SameFdsKeep(cfg: Config, w: World, conns: seq<Conn>)
    requires WorldOk(cfg, w) && |conns| == |w.conns| && forall i :: 0 <= i < |conns| ==> conns[i].fd == w.conns[i].fd
    ensures WorldOk(cfg, w.(conns := conns))
  {
    hide Distinct, FewPerIp, ClientsOk, AllHeld;
    forall d: nat | Live(w.conns, d)
      ensures Live(conns, d)
    {
      var j :| 0 <= j < |w.conns| && w.conns[j].fd == d;
      assert conns[j].fd == d;
    }
    SameHoldings(w, w.(conns := conns));
  }

  // ---------- Sessions ----------

  /** Some sessions of t are missing from rest. */
  predicate Fewer(t: Slist, rest: Slist) {
    |rest| == |t| && forall i :: 0 <= i < |t| ==> rest[i] == t[i] || rest[i].None?
  }

  lemma FreeingShape(w: World, rest: Slist)
    ensures Freeing(w, rest).clients == rest && Freeing(w, rest).conns == w.conns
  {
  }

  lemma FreeingKeeps(cfg: Config, w: World, rest: Slist)
    requires WorldOk(cfg, w) && Fewer(w.clients, rest)
    ensures WorldOk(cfg, Freeing(w, rest))
  {
    hide SessionOk, FewPerIp, Exact, Lost, ConnsOk, Live;
    ThinnerKeeps(w.clients, rest);
    ShrinkParts(StreamSets(w.clients), w.dirs, StreamSets(rest));
    ShrinkParts(DescriptorSets(w.clients), w.files, DescriptorSets(rest));
  }

  /** Expiry touches no session that has a connection. */
  lemma ExpireKeeps(cfg: Config, w: World, now: int)
    requires WorldOk(cfg, w)
    ensures var v := Expire(w, now);
      && WorldOk(cfg, v)
      && (forall i :: 0 <= i < |w.clients| && w.clients[i].Some? && w.clients[i].value.fd != 0 ==>
          v.clients[i] == w.clients[i])
      && (forall i :: 0 <= i < |v.clients| && v.clients[i].Some? ==>
            v.clients[i].value.fd != 0 || now - v.clients[i].value.contact < SESSION_TIMEOUT)
  {
    FreeingKeeps(cfg, w, WithoutExpired(w.clients, now, |w.clients|));
  }

  lemma DeliverKeeps(cfg: Config, s: Session, seqno: U8, r: Request, env: Env, dirs: set<nat>, files: set<nat>)
    requires SessionOk(cfg, s) && Held(s.state.slots) <= dirs && HeldFiles(s.state.files) <= files
    requires seqno != s.lastseqno ==> Answerable(cfg, s.state, r.cmd, r.data, env, dirs, files)
    requires CmdAllowed(cfg.settings.readOnly, r.cmd)
    ensures var t := Deliver(cfg, s, seqno, r, env).session;
      SessionOk(cfg, t) && t.sid == s.sid && BothConserve(s.state, dirs, files, t.state)
  {
    hide Commands.Handle, Answerable, SavedOk, Namable, AllOk, FilesOk, Held, HeldFiles, Message, Paths.RootChecked,
        Sourced, AllAsked;
    RootIsKept(cfg, s.state, r.cmd, r.data, env);
    HandleKeepsSourced(cfg, s.state, r.cmd, r.data, env);
    SavedReplyInvariant(cfg, s, seqno, r, env);
    if seqno == s.lastseqno {
      NothingMoved(s.state, dirs, files);
    } else {
      HandleConserves(cfg, s.state, r.cmd, r.data, env, dirs, files);
    }
  }

  /** The session behind a table entry takes over what its predecessor held, less what it gave back, plus
      what is new. */
  lemma ReplaceKeeps(cfg: Config, w: World, i: nat, c: Client)
    requires WorldOk(cfg, w) && i < |w.clients| && w.clients[i].Some? && SessionOk(cfg, c.session)
    requires c.session.sid == w.clients[i].value.session.sid && c.ip == w.clients[i].value.ip
    requires c.fd == 0 || Live(w.conns, c.fd)
    requires BothConserve(w.clients[i].value.session.state, w.dirs, w.files, c.session.state)
    ensures var b := w.clients[i].value.session.state; var s := c.session.state;
      WorldOk(cfg, World(w.clients[i := Some(c)], w.conns, (w.dirs - Held(b.slots)) + Held(s.slots),
                         (w.files - HeldFiles(b.files)) + HeldFiles(s.files)))
  {
    hide SessionOk, FewPerIp, Exact, ConnsOk, Live, Held, HeldFiles, Owns, OwnsFiles;
    var b, s := w.clients[i].value.session.state, c.session.state;
    var t := w.clients[i := Some(c)];
    ThinnerKeeps(w.clients, t);
    ReplacePart(StreamSets(w.clients), w.dirs, i, Held(s.slots));
    assert StreamSets(t) == StreamSets(w.clients)[i := Held(s.slots)];
    ReplacePart(DescriptorSets(w.clients), w.files, i, HeldFiles(s.files));
    assert DescriptorSets(t) == DescriptorSets(w.clients)[i := HeldFiles(s.files)];
  }

  // ---------- Messages ----------

  /** The operating system answers a request to a session with streams and descriptors that are new. */
  predicate Honest(cfg: Config, w: World, a: Arrival) {
    match Addressed(cfg, w, a)
    case None => true
    case Some(i) =>
      var s := w.clients[i].value.session;
      a.Seqno() != s.lastseqno ==> Answerable(cfg, s.state, a.Cmd(), a.Data(), a.env, w.dirs, w.files)
  }

  lemma ToSessionKeeps(cfg: Config, w: World, fd: nat, a: Arrival)
    requires WorldOk(cfg, w) && Honest(cfg, w, a) && (fd == 0 || Live(w.conns, fd)) && Addressed(cfg, w, a).Some?
    ensures WorldOk(cfg, ToSession(cfg, w, Addressed(cfg, w, a).value, fd, a).world)
  {
    hide SessionOk, FewPerIp, Distinct, ConnsOk, Live, Bound, Held, HeldFiles, Answerable, Deliver, BothConserve,
        AllHeld, Freeing;
    var i := Addressed(cfg, w, a).value;
    var c := Reached(w.clients[i].value, fd, a.env.now);
    var d := Serve(cfg, Some(c.session), a.Seqno(), a.Req(), a.env);
    if d.session.None? {
      FreeingKeeps(cfg, w, w.clients[i := None]);
    } else {
      HeldIsOpenAt(cfg, w, i);
      DeliverKeeps(cfg, c.session, a.Seqno(), a.Req(), a.env, w.dirs, w.files);
      ReplaceKeeps(cfg, w, i, c.(session := d.session.value));
    }
  }

  lemma HeldIsOpenAt(cfg: Config, w: World, i: nat)
    requires WorldOk(cfg, w) && i < |w.clients| && w.clients[i].Some?
    ensures Held(w.clients[i].value.session.state.slots) <= w.dirs &&
        HeldFiles(w.clients[i].value.session.state.files) <= w.files
  {
    hide Exact, FewPerIp, Distinct, ClientsOk, ConnsOk, Bound;
    PartIsOpen(StreamSets(w.clients), w.dirs, i);
    PartIsOpen(DescriptorSets(w.clients), w.files, i);
  }

  /** What the table makes of a request is what the protocol says of the session it names, or of none, and no
      other session is touched. */
  lemma RequestReachesItsSession(cfg: Config, w: World, fd: nat, a: Arrival, i: nat)
    requires Distinct(w.clients) && Has(w.clients, i, a.Sid()) && w.clients[i].value.ip == a.ip
    requires a.Cmd() != 0 && CmdAllowed(cfg.settings.readOnly, a.Cmd())
    ensures var d := Serve(cfg, Some(w.clients[i].value.session), a.Seqno(), a.Req(), a.env);
      var h := Decode(cfg, w, fd, a);
      && h.sent == d.sent && h.calls == d.calls
      && h.world.clients
         == w.clients[i := match d.session case None => None case Some(s) => Some(Client(s, a.ip, a.env.now, fd))]
  {
    hide Serve, Distinct, Mount, FindSid, Lost;
    LookupIsUnique(w.clients, a.Sid(), i);
  }

  /** A request that names a session of another address is dropped: nothing is done and nothing is sent. */
  lemma ForeignRequestIsDropped(cfg: Config, w: World, fd: nat, a: Arrival, i: nat)
    requires Distinct(w.clients) && Has(w.clients, i, a.Sid()) && w.clients[i].value.ip != a.ip
    requires a.Cmd() != 0 && CmdAllowed(cfg.settings.readOnly, a.Cmd())
    ensures Decode(cfg, w, fd, a) == Handled(w, [], [])
  {
    hide Serve, Distinct, Mount, Lost;
    LookupIsUnique(w.clients, a.Sid(), i);
  }

  /** No message from another address changes or ends a session, but that a MOUNT ends one that is due to
      expire: without a connection and silent for 600 seconds. */
  lemma OtherAddressesAreUntouched(cfg: Config, w: World, fd: nat, a: Arrival, i: nat)
    requires Distinct(w.clients) && i < |w.clients| && w.clients[i].Some? && w.clients[i].value.ip != a.ip
    ensures var after := Decode(cfg, w, fd, a).world.clients;
      && |after| == |w.clients|
      && (after[i] == w.clients[i]
          || (a.Cmd() == 0 && w.clients[i].value.fd == 0 && a.mount.now - w.clients[i].value.contact >= 600))
  {
    hide Serve, Distinct, Lost, Mount;
    if CmdAllowed(cfg.settings.readOnly, a.Cmd()) && a.Cmd() == 0 {
      MountSparesOthers(w.clients, a.Seqno(), a.Data(), a.ip, fd, a.mount.(served := cfg.root), i);
    }
  }

  lemma MountSparesOthers(t: Slist, seqno: U8, data: seq<U8>, ip: U32, fd: nat, env: MountEnv, i: nat)
    requires i < |t| && t[i].Some? && t[i].value.ip != ip
    ensures var u := Mount(t, seqno, data, ip, fd, env).table;
      |u| == |t| && (u[i] == t[i] || (t[i].value.fd == 0 && env.now - t[i].value.contact >= 600))
  {
    hide NewSid, MountRoot, NewState, Message, Paths.RootChecked;
    SearchFindsFullAddress(t, ip, env.now);
  }

  lemma RequestToNobody(cfg: Config, w: World, fd: nat, a: Arrival)
    requires Unclaimed(w.clients, a.Sid()) && a.Cmd() != 0
    ensures Decode(cfg, w, fd, a) == Handled(w, Serve(cfg, None, a.Seqno(), a.Req(), a.env).sent, [])
  {
  }

  /** An UMOUNT that arrives again: the first copy is answered with success and closes all the session held;
      the second finds no session, is answered so, and changes nothing. */
  lemma RepeatedUmount(cfg: Config, w: World, fd: nat, a: Arrival, fd': nat, a': Arrival, i: nat)
    requires WorldOk(cfg, w) && Has(w.clients, i, a.Sid()) && w.clients[i].value.ip == a.ip
    requires a.Cmd() == UMOUNT && a.Seqno() != w.clients[i].value.session.lastseqno && a'.bytes == a.bytes
    ensures var first := Decode(cfg, w, fd, a);
      && first.sent == [Message(a.Sid(), a.Seqno(), UMOUNT, Status.SUCCESS, [])]
      && first.world.clients[i].None? && Streams(w.clients[i]) !! first.world.dirs &&
          Descriptors(w.clients[i]) !! first.world.files
      && Decode(cfg, first.world, fd', a')
          == Handled(first.world, [Message(0, a.Seqno(), UMOUNT, Status.EBADSESSION, [])], [])
  {
    hide Message, ClientsOk, FewPerIp, AllHeld, ConnsOk, Bound, Streams, Descriptors, Deliver, FindSid, Mount, Lost;
    LookupIsUnique(w.clients, a.Sid(), i);
    UmountIsAnswered(cfg, w.clients[i].value.session, a.Seqno(), a.Data(), a.env);
    UmountIsPerformed(cfg, w.clients[i].value.session, a.Seqno(), a.Data(), a.env);
    var rest := w.clients[i := None];
    FreedHoldsNothing(cfg, w, rest);
    assert rest[i].None?;
    assert Unclaimed(rest, a.Sid());
    RequestToNobody(cfg, Freeing(w, rest), fd', a');
  }

  lemma UmountIsPerformed(cfg: Config, s: Session, seqno: U8, data: seq<U8>, env: Env)
    requires seqno != s.lastseqno
    ensures Serve(cfg, Some(s), seqno, Request(UMOUNT, data), env)
        == Execute(cfg, Some(s), seqno, Request(UMOUNT, data), env)
  {
    hide Perform;
  }

  lemma NewSessionOk(cfg: Config, sid: U16, root: CString, seqno: U8)
    requires Paths.RootChecked(cfg.root, root)
    ensures SessionOk(cfg, Session(sid, NewState(root), Message(sid, seqno, 0, 0, [3, 1, 0xE8, 3]), seqno))
    ensures Held(NewState(root).slots) == {} && HeldFiles(NewState(root).files) == {}
  {
  }

  /** The shape of a mount: some sessions freed, then at most one new one, which holds nothing. */
  lemma MountShape(cfg: Config, t: Slist, seqno: U8, data: seq<U8>, ip: U32, fd: nat, env: MountEnv)
    requires env.served == cfg.root
    ensures var m := Mount(t, seqno, data, ip, fd, env);
      && Fewer(t, m.rest) && |m.table| == |t|
      && (m.table == m.rest
          || exists i :: 0 <= i < |t| && m.rest[i].None? && m.table[i].Some? && m.table == m.rest[i := m.table[i]]
                         && m.table[i].value.fd == fd && SessionOk(cfg, m.table[i].value.session)
                         && Streams(m.table[i]) == {} && Descriptors(m.table[i]) == {})
  {
    hide Sixteenth, FirstCounting, NewSid, MountRoot, SessionOk, NewState, Message, FindSid, Held, HeldFiles;
    var m := Mount(t, seqno, data, ip, fd, env);
    var i := FreeIndex(m.rest, 0);
    if m.table != m.rest {
      NewSessionOk(cfg, m.table[i].value.session.sid, MountRoot(data, env.beyond), seqno);
    }
  }

  /** A new session holds nothing yet, so the shares stay exact. */
  lemma JoinKeepsShares(w: World, i: nat, e: Option<Client>)
    requires AllHeld(w) && i < |w.clients| && w.clients[i].None? && Streams(e) == {} && Descriptors(e) == {}
    ensures AllHeld(w.(clients := w.clients[i := e]))
  {
    hide Held, HeldFiles, Exact;
    var t := w.clients[i := e];
    assert StreamSets(t) == StreamSets(w.clients);
    assert DescriptorSets(t) == DescriptorSets(w.clients);
  }

  lemma MountKeeps(cfg: Config, w: World, seqno: U8, data: seq<U8>, ip: U32, fd: nat, env: MountEnv)
    requires env.served == cfg.root && WorldOk(cfg, w) && (fd == 0 || Live(w.conns, fd))
    ensures var m := Mount(w.clients, seqno, data, ip, fd, env); WorldOk(cfg, Freeing(w, m.rest).(clients := m.table))
  {
    hide Mount, FewPerIp, Distinct, ConnsOk, Live, AllHeld, Streams, Descriptors, SessionOk, Freeing;
    var m := Mount(w.clients, seqno, data, ip, fd, env);
    MountKeepsIds(w.clients, seqno, data, ip, fd, env);
    MountShape(cfg, w.clients, seqno, data, ip, fd, env);
    FreeingKeeps(cfg, w, m.rest);
    var v := Freeing(w, m.rest);
    FreeingShape(w, m.rest);
    if m.table != m.rest {
      var i :| 0 <= i < |m.table| && m.rest[i].None? && m.table[i].Some? && m.table == m.rest[i := m.table[i]]
               && m.table[i].value.fd == fd && SessionOk(cfg, m.table[i].value.session)
               && Streams(m.table[i]) == {} && Descriptors(m.table[i]) == {};
      JoinKeepsShares(v, i, m.table[i]);
    }
  }

  lemma DecodeKeeps(cfg: Config, w: World, fd: nat, a: Arrival)
    requires WorldOk(cfg, w) && Honest(cfg, w, a) && (fd == 0 || Live(w.conns, fd))
    ensures WorldOk(cfg, Decode(cfg, w, fd, a).world)
  {
    hide WorldOk, Live, Honest, Mount, ToSession, Freeing, FindSid;
    if a.Cmd() == 0 {
      MountKeeps(cfg, w, a.Seqno(), a.Data(), a.ip, fd, a.mount.(served := cfg.root));
    }
    if Addressed(cfg, w, a).Some? {
      ToSessionKeeps(cfg, w, fd, a);
    }
  }

  lemma RespondKeeps(cfg: Config, w: World, fd: nat, a: Arrival)
    requires WorldOk(cfg, w) && Honest(cfg, w, a) && (fd == 0 || Live(w.conns, fd))
    ensures WorldOk(cfg, Respond(cfg, w, fd, a)) && |Respond(cfg, w, fd, a).conns| == |w.conns|
  {
    hide WorldOk, Live, Honest, Decode;
    DecodeKeeps(cfg, w, fd, a);
    SameFdsKeep(cfg, Decode(cfg, w, fd, a).world, MarkDead(w.conns, fd));
  }

  // ---------- Passes ----------

  /** What a slot receives is answered honestly. */
  ghost predicate HonestSlot(cfg: Config, w: World, i: nat, r: Received)
    requires i < |w.conns|
  {
    r.Got? ==> Honest(cfg, w.(conns := w.conns[i := w.conns[i].(contact := r.at)]), r.arrival.(ip := w.conns[i].ip))
  }

  lemma TcpMessageKeeps(cfg: Config, w: World, i: nat, r: Received)
    requires WorldOk(cfg, w) && i < |w.conns| && w.conns[i].fd != 0 && HonestSlot(cfg, w, i, r)
    ensures WorldOk(cfg, TcpMessage(cfg, w, i, r))
  {
    hide WorldOk, Honest, Respond, CloseConn;
    SameFdsKeep(cfg, w, w.conns[i := w.conns[i].(contact := r.at)]);
    var v := w.(conns := w.conns[i := w.conns[i].(contact := r.at)]);
    match r
    case Gone(_) => CloseConnKeeps(cfg, v, i);
    case Got(_, a) => RespondKeeps(cfg, v, v.conns[i].fd, a.(ip := v.conns[i].ip));
  }

  ghost predicate HonestSlots(cfg: Config, w: World, tcp: Incoming, i: nat)
    requires i <= |tcp| && |w.conns| == MAX_CONNS
    decreases |tcp| - i
  {
    i == |tcp| || ((w.conns[i].fd != 0 && tcp[i].Some? ==> HonestSlot(cfg, w, i, tcp[i].value)) &&
        HonestSlots(cfg, Turn(cfg, w, tcp, i), tcp, i + 1))
  }

  lemma {:induction false} SlotsKeep(cfg: Config, w: World, tcp: Incoming, i: nat)
    requires WorldOk(cfg, w) && i <= |tcp| && |w.conns| == MAX_CONNS
    requires HonestSlots(cfg, w, tcp, i)
    ensures WorldOk(cfg, Slots(cfg, w, tcp, i))
    decreases |tcp| - i
  {
    hide WorldOk, HonestSlot, TcpMessage;
    if i < |tcp| {
      if w.conns[i].fd != 0 && tcp[i].Some? {
        TcpMessageKeeps(cfg, w, i, tcp[i].value);
      }
      SlotsKeep(cfg, Turn(cfg, w, tcp, i), tcp, i + 1);
    }
  }

  /** What is asked of the surroundings in one pass: accept() yields a descriptor that no connection has,
      and the operating system hands out streams and descriptors that are new. */
  ghost predicate Fair(cfg: Config, w: World, x: Input)
    requires |w.conns| == MAX_CONNS
  {
    var v := Swept(w, x);
    && (x.udp.Some? ==> Honest(cfg, v, x.udp.value))
    && (x.accepted.Some? ==> x.accepted.value.0 != 0 && !Live(WithDatagram(cfg, v, x).conns, x.accepted.value.0))
    && HonestSlots(cfg, BeforeSlots(cfg, w, x), x.tcp, 0)
  }

  lemma BeforeSlotsKeeps(cfg: Config, w: World, x: Input)
    requires WorldOk(cfg, w) && |w.conns| == MAX_CONNS && Fair(cfg, w, x)
    ensures WorldOk(cfg, BeforeSlots(cfg, w, x))
  {
    hide WorldOk, Honest, HonestSlots, Live, Accept, Respond, CloseStale, Expire;
    CloseStaleKeeps(cfg, w, x.now);
    ExpireKeeps(cfg, CloseStale(w, x.now), x.now);
    var v := Swept(w, x);
    if x.udp.Some? {
      RespondKeeps(cfg, v, 0, x.udp.value);
    }
    if x.accepted.Some? {
      AcceptKeeps(cfg, WithDatagram(cfg, v, x), x.accepted.value.0, x.accepted.value.1, x.accepted.value.2);
    }
  }

  lemma PassKeeps(cfg: Config, w: World, x: Input)
    requires WorldOk(cfg, w) && |w.conns| == MAX_CONNS && Fair(cfg, w, x)
    ensures WorldOk(cfg, Pass(cfg, w, x))
  {
    hide WorldOk, Honest, HonestSlots, Live, BeforeSlots;
    BeforeSlotsKeeps(cfg, w, x);
    SlotsKeep(cfg, BeforeSlots(cfg, w, x), x.tcp, 0);
  }

  // ---------- Whole runs ----------

  ghost function Run(cfg: Config, w: World, xs: seq<Input>): (v: World)
    requires |w.conns| == MAX_CONNS
    ensures |v.conns| == MAX_CONNS
    decreases |xs|
  {
    if xs == [] then w else Run(cfg, Pass(cfg, w, xs[0]), xs[1..])
  }

  ghost predicate FairRun(cfg: Config, w: World, xs: seq<Input>)
    requires |w.conns| == MAX_CONNS
    decreases |xs|
  {
    xs == [] || (Fair(cfg, w, xs[0]) && FairRun(cfg, Pass(cfg, w, xs[0]), xs[1..]))
  }

  lemma {:induction false} RunKeeps(cfg: Config, w: World, xs: seq<Input>)
    requires WorldOk(cfg, w) && |w.conns| == MAX_CONNS && FairRun(cfg, w, xs)
    ensures WorldOk(cfg, Run(cfg, w, xs))
    decreases |xs|
  {
    hide WorldOk, Fair, Pass;
    if xs != [] {
      PassKeeps(cfg, w, xs[0]);
      RunKeeps(cfg, Pass(cfg, w, xs[0]), xs[1..]);
    }
  }

  /** In every state the server reaches: session IDs are distinct and not zero, no address has more than
      sixteen sessions, every session's saved reply and slots are well formed, every session with a
      connection is bound to exactly one live slot, and everything open is held by exactly one session.
      Messages are any bytes, which covers TCP messages shorter than a header. */
  lemma EveryReachableState(cfg: Config, xs: seq<Input>)
    requires FairRun(cfg, START, xs)
    ensures WorldOk(cfg, Run(cfg, START, xs))
  {
    hide WorldOk, FairRun, Run;
    StartOk(cfg);
    RunKeeps(cfg, START, xs);
  }

  // ---------- What the invariant means ----------

  /** In every state the server reaches, the accepted file names of a session all stay inside the served root
      if and only if the session's own root prefix, as far as the path buffer holds it, does; the mount check
      sees to that for every root prefix that fits its buffer. */
  lemma NoNameLeadsOutside(cfg: Config, xs: seq<Input>, i: nat)
    requires FairRun(cfg, START, xs)
    requires i < |Run(cfg, START, xs).clients| && Run(cfg, START, xs).clients[i].Some?
    ensures var sroot := Run(cfg, START, xs).clients[i].value.session.state.root;
      var prefix := Paths.Cut(Paths.RootPrefix(cfg.root, sroot), Paths.MAX_FILEPATH - 1);
      var inside := Paths.Place(cfg.root) <= Paths.Place(prefix);
      && ((forall name :: !Paths.DotDot(name) ==>
          Paths.Place(cfg.root) <= Paths.Place(Paths.FullPath(cfg.root, sroot, name))) <==> inside)
      && (|Paths.RootPrefix(cfg.root, sroot)| < MAX_TNFSPATH ==> inside)
  {
    hide FairRun, Run, Distinct, FewPerIp, ConnsOk, Bound, AllHeld, SavedOk, Namable, Sound, Owns, OwnsFiles, Sourced,
         Paths.Place, Paths.FullPath, Paths.RootPrefix, Paths.RootChecked, Paths.DotDot;
    EveryReachableState(cfg, xs);
    var sroot := Run(cfg, START, xs).clients[i].value.session.state.root;
    Paths.NamesStayInsideExactly(cfg.root, sroot);
    if |Paths.RootPrefix(cfg.root, sroot)| < MAX_TNFSPATH {
      forall name | !Paths.DotDot(name)
        ensures Paths.Place(cfg.root) <= Paths.Place(Paths.FullPath(cfg.root, sroot, name))
      {
        Paths.CheckedRootsHold(cfg.root, sroot, name);
      }
    }
  }

  /** The slot an OPENDIRX request is served from is a cached one. */
  predicate IsHit(slots: seq<Slot>, k: Key, now: int) {
    var c := Choose(slots, k, DirOptsOf(k.diropt).traverse, now);
    0 <= c.index < |c.slots| && c.slots[c.index].loaded
  }

  /** In every state the server reaches, an OPENDIRX that a cached listing serves gets, from its first entry
      on, one that was walked for an earlier request b of this session: for the same path and options, and for
      the same pattern unless b's was too long for the slot, which takes a pattern of 255 characters now. */
  lemma ReuseInEveryState(cfg: Config, xs: seq<Input>, i: nat, data: seq<U8>, env: Env) returns (b: Build)
    requires FairRun(cfg, START, xs)
    requires i < |Run(cfg, START, xs).clients| && Run(cfg, START, xs).clients[i].Some?
    requires |data| >= 7 && Terminated(data)
    requires var st := Run(cfg, START, xs).clients[i].value.session.state;
      IsHit(st.slots, OpenDirXKey(cfg, st, data, env.inside), env.now)
    ensures var st := Run(cfg, START, xs).clients[i].value.session.state;
      var k := OpenDirXKey(cfg, st, data, env.inside);
      var after := Commands.Handle(cfg, st, 0x17, data, env).state;
      var slot := Choose(st.slots, k, DirOptsOf(k.diropt).traverse, env.now).index;
      && 0 <= slot < |after.slots| && after.slots[slot].cursor == 0
      && b in st.builds && b.entries == after.slots[slot].entries && Reused(b, k)
      && slot < |st.slots| && (st.slots[slot].open || env.now - b.at <= 300)
  {
    hide FairRun, Run, Distinct, FewPerIp, ConnsOk, Bound, AllHeld, SavedOk, Namable, FilesOk, AllOk, Owns,
         OwnsFiles, Sourced, AllAsked, Paths.RootChecked, Choose, OpenDirX, DirOptsOf, Reused, OpenDirXKey,
         NewBuild, Lists;
    EveryReachableState(cfg, xs);
    var st := Run(cfg, START, xs).clients[i].value.session.state;
    var k := OpenDirXKey(cfg, st, data, env.inside);
    b := ReuseServesSameRequest(st.slots, k, FromLe16(data[2..4]), env.now, env.enumeration, st.builds);
    ChosenIsReset(st.slots, k, DirOptsOf(k.diropt).traverse, env.now);
    OpenDirXSlots(st.slots, k, FromLe16(data[2..4]), env.now, env.enumeration);
  }

  lemma OpenDirXSlots(slots: seq<Slot>, k: Key, maxresults: U16, now: int, e: Enumeration)
    ensures |OpenDirX(slots, k, maxresults, now, e).slots|
        == |Choose(slots, k, DirOptsOf(k.diropt).traverse, now).slots|
  {
    hide Choose, ListingFor, DirOptsOf;
  }

  /** A session's connection is one slot and no other. */
  lemma BoundToOneSlot(cfg: Config, w: World, i: nat)
    requires WorldOk(cfg, w) && i < |w.clients| && w.clients[i].Some? && w.clients[i].value.fd != 0
    ensures var fd := w.clients[i].value.fd; var j := ConnIndex(w.conns, fd, 0);
      j < |w.conns| && forall k :: 0 <= k < |w.conns| && w.conns[k].fd == fd ==> k == j
  {
    hide ClientsOk, Distinct, FewPerIp, AllHeld;
  }

  /** Slot k of session i holds stream x. */
  predicate Holds(w: World, i: int, k: int, x: nat) {
    && 0 <= i < |w.clients| && w.clients[i].Some?
    && 0 <= k < |w.clients[i].value.session.state.slots| && w.clients[i].value.session.state.slots[k].stream == x
  }

  /** Each open stream belongs to one slot of one session. */
  lemma StreamHasOneHolder(cfg: Config, w: World, x: nat) returns (i: nat, k: nat)
    requires WorldOk(cfg, w) && x in w.dirs
    ensures Holds(w, i, k, x)
    ensures forall i', k' :: Holds(w, i', k', x) ==> i' == i && k' == k
  {
    hide Distinct, FewPerIp, ConnsOk, Bound, SavedOk, Namable, Sound, OwnsFiles;
    i :| 0 <= i < |w.clients| && x in StreamSets(w.clients)[i];
    var slots := w.clients[i].value.session.state.slots;
    k :| 0 <= k < |slots| && slots[k].stream == x;
    forall i', k' | Holds(w, i', k', x)
      ensures i' == i && k' == k
    {
      assert x in StreamSets(w.clients)[i'];
      assert StreamSets(w.clients)[i] !! StreamSets(w.clients)[i'] || i == i';
    }
  }

  /** Freeing sessions, whether by UMOUNT, expiry or recycling, closes all they held and nothing of others. */
  lemma FreedHoldsNothing(cfg: Config, w: World, rest: Slist)
    requires WorldOk(cfg, w) && Fewer(w.clients, rest)
    ensures var v := Freeing(w, rest);
      forall i :: 0 <= i < |rest| ==>
        if rest[i].None? then Streams(w.clients[i]) !! v.dirs && Descriptors(w.clients[i]) !! v.files
        else Streams(w.clients[i]) <= v.dirs && Descriptors(w.clients[i]) <= v.files
  {
    hide Distinct, FewPerIp, ClientsOk, ConnsOk, Bound, Streams, Descriptors, Exact, Lost;
    NoneHolds();
    LostParts(StreamSets(w.clients), w.dirs, StreamSets(rest));
    LostParts(DescriptorSets(w.clients), w.files, DescriptorSets(rest));
  }

  /** A MOUNT at sixteen live sessions closes all that the first of them held. */
  lemma RecycledHoldsNothing(cfg: Config, w: World, seqno: U8, data: seq<U8>, ip: U32, fd: nat, env: MountEnv)
    requires env.served == cfg.root && WorldOk(cfg, w) && (data == [] || data[|data| - 1] == 0)
    requires Sessions.Before(w.clients, ip, env.now, |w.clients|) >= 16
    ensures var v := Freeing(w, Mount(w.clients, seqno, data, ip, fd, env).rest);
      var i := FirstCounting(w.clients, ip, env.now, 0);
      i < |w.clients| && Streams(w.clients[i]) !! v.dirs && Descriptors(w.clients[i]) !! v.files
  {
    hide Mount, Freeing, Streams, Descriptors, FewPerIp, Distinct, ConnsOk, AllHeld, ClientsOk;
    MountRecyclesFirst(w.clients, seqno, data, ip, fd, env);
    MountShape(cfg, w.clients, seqno, data, ip, fd, env);
    FreedHoldsNothing(cfg, w, Mount(w.clients, seqno, data, ip, fd, env).rest);
  }

  lemma NoneHolds()
    ensures Streams(None) == {} && Descriptors(None) == {}
  {
  }

  lemma LostParts(parts: seq<set<nat>>, open: set<nat>, after: seq<set<nat>>)
    requires Exact(parts, open) && |after| == |parts|
    requires forall i :: 0 <= i < |parts| ==> after[i] == parts[i] || after[i] == {}
    ensures forall i :: 0 <= i < |parts| ==>
      if after[i] == {} then parts[i] !! (open - Lost(parts, after)) else parts[i] <= open - Lost(parts, after)
  {
  }

  /** After the loop ends nothing is left open: no stream, no file, no connection. */
  lemma ShutdownReleasesAll(cfg: Config, w: World)
    requires WorldOk(cfg, w)
    ensures var v := Shutdown(w); v.dirs == {} && v.files == {} && forall i :: 0 <= i < |v.conns| ==> v.conns[i].fd == 0
  {
    hide Distinct, FewPerIp, ClientsOk, ConnsOk, Bound;
    var fds := set i | 0 <= i < |w.conns| && w.conns[i].fd != 0 :: w.conns[i].fd;
    var t := Unbound(w.clients, fds);
    assert StreamSets(t) == StreamSets(w.clients);
    assert DescriptorSets(t) == DescriptorSets(w.clients);
    var none := seq(|t|, _ => None);
    LoseAll(StreamSets(t), w.dirs, StreamSets(none));
    LoseAll(DescriptorSets(t), w.files, DescriptorSets(none));
  }

  lemma LoseAll(parts: seq<set<nat>>, open: set<nat>, after: seq<set<nat>>)
    requires Exact(parts, open) && |after| == |parts| && forall i :: 0 <= i < |after| ==> after[i] == {}
    ensures open - Lost(parts, after) == {}
  {
  }

  /** A mount frees no session with a connection, except the one it recycles. */
  lemma SearchSparesConnected(t: Slist, ip: U32, now: int, i: nat)
    requires i < |t| && t[i].Some? && t[i].value.fd != 0
    ensures FindIp(t, ip, now).table[i] == t[i]
  {
  }

  // ---------- Dead connections ----------

  /** The clock reads more than the connection timeout: a contact time of 0 lies that far back. */
  predicate Timed(x: Input) {
    && x.now > CONN_TIMEOUT && (x.accepted.Some? ==> x.accepted.value.2 > 0)
    && forall i :: 0 <= i < |x.tcp| && x.tcp[i].Some? ==> x.tcp[i].value.at > 0
  }

  /** No live connection from slot i on is marked dead. */
  predicate NoneDead(conns: seq<Conn>, i: nat) {
    forall j :: i <= j < |conns| && conns[j].fd != 0 ==> conns[j].contact > 0
  }

  ghost predicate NoDeadHandled(cfg: Config, w: World, tcp: Incoming, i: nat)
    requires i <= |tcp| && |w.conns| == MAX_CONNS
    decreases |tcp| - i
  {
    i == |tcp| || ((w.conns[i].fd != 0 && tcp[i].Some? ==> w.conns[i].contact > 0) &&
        NoDeadHandled(cfg, Turn(cfg, w, tcp, i), tcp, i + 1))
  }

  /** The turn of a slot touches no other slot. */
  lemma TurnIsLocal(cfg: Config, w: World, tcp: Incoming, i: nat)
    requires ConnsOk(w.conns) && i < |tcp| && |w.conns| == MAX_CONNS
    ensures var v := Turn(cfg, w, tcp, i);
      ConnsOk(v.conns) && (forall j :: 0 <= j < |w.conns| && j != i ==> v.conns[j] == w.conns[j]) &&
          (v.conns[i].fd == 0 || v.conns[i].fd == w.conns[i].fd)
  {
    hide Decode, Unbound;
  }

  lemma {:induction false} AwakeSlots(cfg: Config, w: World, tcp: Incoming, i: nat)
    requires ConnsOk(w.conns) && i <= |tcp| && |w.conns| == MAX_CONNS && NoneDead(w.conns, i)
    ensures NoDeadHandled(cfg, w, tcp, i)
    decreases |tcp| - i
  {
    hide Turn, ConnsOk;
    if i < |tcp| {
      TurnIsLocal(cfg, w, tcp, i);
      AwakeSlots(cfg, Turn(cfg, w, tcp, i), tcp, i + 1);
    }
  }

  /** A pass begins by closing every connection marked dead, and no session stays bound to one. */
  lemma DeadAreReaped(w: World, x: Input)
    requires Timed(x)
    ensures var v := Swept(w, x);
      && |v.conns| == |w.conns| && NoneDead(v.conns, 0)
      && (forall i :: 0 <= i < |w.conns| && w.conns[i].fd != 0 && w.conns[i].contact == 0 ==> v.conns[i].fd == 0)
      && (forall i, k :: 0 <= i < |w.conns| && w.conns[i].fd != 0 && w.conns[i].contact == 0
                         && 0 <= k < |v.clients| && v.clients[k].Some? ==>
            v.clients[k].value.fd != w.conns[i].fd)
  {
    var u := CloseStale(w, x.now);
    forall i, k | 0 <= i < |w.conns| && w.conns[i].fd != 0 && w.conns[i].contact == 0
                  && 0 <= k < |u.clients| && u.clients[k].Some?
      ensures u.clients[k].value.fd != w.conns[i].fd
    {
      assert StaleConn(w.conns[i], x.now);
      assert w.conns[i].fd in StaleFds(w.conns, x.now);
    }
  }

  lemma {:induction false} LaterTurnsLeave(cfg: Config, w: World, tcp: Incoming, i: nat, j: nat)
    requires ConnsOk(w.conns) && j < i <= |tcp| && |w.conns| == MAX_CONNS
    ensures var v := Slots(cfg, w, tcp, i); ConnsOk(v.conns) && v.conns[j] == w.conns[j]
    decreases |tcp| - i
  {
    hide Turn, ConnsOk;
    if i < |tcp| {
      TurnIsLocal(cfg, w, tcp, i);
      LaterTurnsLeave(cfg, Turn(cfg, w, tcp, i), tcp, i + 1, j);
    }
  }

  /** The reply to what slot i receives is not taken whole. */
  ghost predicate SendFails(cfg: Config, w: World, i: nat, r: Received)
    requires i < |w.conns|
  {
    r.Got? && !r.arrival.sendOk
    && Decode(cfg, w.(conns := w.conns[i := w.conns[i].(contact := r.at)]), w.conns[i].fd,
        r.arrival.(ip := w.conns[i].ip)).sent != []
  }

  lemma FailedSendMarks(cfg: Config, w: World, tcp: Incoming, i: nat)
    requires ConnsOk(w.conns) && i < |tcp| && |w.conns| == MAX_CONNS && w.conns[i].fd != 0
    requires tcp[i].Some? && SendFails(cfg, w, i, tcp[i].value)
    ensures Turn(cfg, w, tcp, i).conns[i] == w.conns[i].(contact := 0)
  {
    hide Decode;
  }

  /** When a send fails in the turn of slot i, that connection is closed, and its sessions unbound, when the
      next pass begins, whatever the other slots do in between. */
  lemma FailedSendCloses(cfg: Config, w: World, tcp: Incoming, i: nat, y: Input)
    requires ConnsOk(w.conns) && i < |tcp| && |w.conns| == MAX_CONNS && w.conns[i].fd != 0
    requires tcp[i].Some? && SendFails(cfg, w, i, tcp[i].value) && Timed(y)
    ensures var v := Swept(Slots(cfg, w, tcp, i), y);
      !Live(v.conns, w.conns[i].fd) && forall k :: 0 <= k < |v.clients| && v.clients[k].Some? ==>
          v.clients[k].value.fd != w.conns[i].fd
  {
    FailedSendMarks(cfg, w, tcp, i);
    TurnIsLocal(cfg, w, tcp, i);
    LaterTurnsLeave(cfg, Turn(cfg, w, tcp, i), tcp, i + 1, i);
    hide Turn, SendFails, Unbound, WithoutExpired, Lost, Timed;
    var u := Slots(cfg, w, tcp, i);
    assert u == Slots(cfg, Turn(cfg, w, tcp, i), tcp, i + 1);
    assert u.conns[i].fd == w.conns[i].fd && u.conns[i].contact == 0;
    DeadAreReaped(u, y);
    SweptFds(u, y);
  }

  lemma SweptFds(w: World, x: Input)
    ensures var v := Swept(w, x);
      |v.conns| == |w.conns| && forall i :: 0 <= i < |w.conns| ==> v.conns[i].fd == 0 || v.conns[i].fd == w.conns[i].fd
  {
  }

  // ---------- Silent clients ----------

  /** At a sweep a session goes exactly when it was silent for 600 s and has no connection, or one that was
      itself silent for longer; closing that connection and freeing the session take one pass. */
  lemma SilentSessionsGo(cfg: Config, w: World, x: Input, i: nat)
    requires WorldOk(cfg, w) && x.sweep && i < |w.clients| && w.clients[i].Some?
    ensures var c := w.clients[i].value;
      var j := ConnIndex(w.conns, c.fd, 0);
      Swept(w, x).clients[i].None? <==>
        x.now - c.contact >= 600 && (c.fd == 0 || (j < |w.conns| && x.now - w.conns[j].contact > 600))
  {
    hide ClientsOk, Distinct, FewPerIp, AllHeld, Lost;
    var c := w.clients[i].value;
    if c.fd != 0 {
      BoundToOneSlot(cfg, w, i);
      var j := ConnIndex(w.conns, c.fd, 0);
      StaleFd(w.conns, x.now, j);
    }
  }

  /** Without a sweep no session goes before the messages of the pass. */
  lemma NoSweepNoExpiry(w: World, x: Input, i: nat)
    requires !x.sweep && i < |w.clients| && w.clients[i].Some?
    ensures |Swept(w, x).clients| == |w.clients| && Swept(w, x).clients[i].Some?
    ensures Swept(w, x).clients[i].value.session == w.clients[i].value.session
  {
  }

  lemma StaleFd(conns: seq<Conn>, now: int, j: nat)
    requires ConnsOk(conns) && j < |conns| && conns[j].fd != 0
    ensures conns[j].fd in StaleFds(conns, now) <==> StaleConn(conns[j], now)
  {
  }

  lemma AwakeBeforeSlots(cfg: Config, w: World, x: Input)
    requires ConnsOk(w.conns) && Timed(x)
    requires x.accepted.Some? ==> !Live(Swept(w, x).conns, x.accepted.value.0) && x.accepted.value.0 != 0
    ensures ConnsOk(BeforeSlots(cfg, w, x).conns) && NoneDead(BeforeSlots(cfg, w, x).conns, 0)
  {
    hide Decode, Unbound, WithoutExpired, Lost;
    DeadAreReaped(w, x);
    assert ConnsOk(Swept(w, x).conns);
    assert WithDatagram(cfg, Swept(w, x), x).conns == Swept(w, x).conns;
  }

  /** A connection marked dead by a failed send is closed before another of its messages is handled: in
      no pass does a slot so marked get its turn. */
  lemma DeadAreNeverHandled(cfg: Config, w: World, x: Input)
    requires ConnsOk(w.conns) && Timed(x)
    requires x.accepted.Some? ==> !Live(Swept(w, x).conns, x.accepted.value.0) && x.accepted.value.0 != 0
    ensures NoDeadHandled(cfg, BeforeSlots(cfg, w, x), x.tcp, 0)
  {
    hide BeforeSlots, Turn, ConnsOk;
    AwakeBeforeSlots(cfg, w, x);
    ConnsSize(BeforeSlots(cfg, w, x).conns);
    AwakeSlots(cfg, BeforeSlots(cfg, w, x), x.tcp, 0);
  }

  lemma ConnsSize(conns: seq<Conn>)
    requires ConnsOk(conns)
    ensures |conns| == MAX_CONNS
  {
  }
}
