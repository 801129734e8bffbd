/** The retransmission protocol of one mounted session (src/datagram.c): sequence numbers, the saved reply,
    and what a client sees over a channel that loses and duplicates. */
module Protocol {
  import opened Endian
  import opened Listing
  import opened Paging
  import opened Auth
  import opened Commands
  import Status

  const HEADER_BYTES := 5
  const MAX_MESSAGE := 532

  /** A session with its retransmit buffer. */
  datatype Session = Session(sid: U16, state: State, lastmsg: seq<U8>, lastseqno: U8)

  const UMOUNT := 0x01

  /** Any command byte but MOUNT's: only those reach a session. */
  type SessionCmd = c: U8 | c != 0 witness UMOUNT

  datatype Request = Request(cmd: SessionCmd, data: seq<U8>)

  /** What one arriving request leads to: the session, the datagrams sent, the calls made. */
  datatype Delivered = Delivered(session: Session, sent: seq<seq<U8>>, calls: seq<OsCall>)

  function Message(sid: U16, seqno: U8, cmd: U8, status: U8, payload: seq<U8>): (m: seq<U8>)
    ensures |m| == HEADER_BYTES + |payload|
  {
    Le16(sid) + [seqno, cmd, status] + payload
  }

  // ---------- One request ----------

  /** Runs the request once: the read-only gate, the handler, and tnfs_send, whose size guard would drop a
      reply longer than a message. */
  ghost function Perform(cfg: Config, s: Session, seqno: U8, r: Request, env: Env): Delivered {
    if !CmdAllowed(cfg.settings.readOnly, r.cmd) then
      Delivered(s, [Message(0, seqno, r.cmd, Status.EPERM, [])], [])
    else
      var d := Handle(cfg, s.state, r.cmd, r.data, env);
      match d.out
      case Silent => Delivered(s.(state := d.state), [], d.calls)
      case Refused(status) => Delivered(s.(state := d.state), [Message(0, seqno, r.cmd, status, [])], d.calls)
      case Recorded(reply) =>
        var m := Message(s.sid, seqno, r.cmd, reply.status, reply.payload);
        if |m| > MAX_MESSAGE then Delivered(s.(state := d.state), [], d.calls)
        else Delivered(s.(state := d.state, lastmsg := m, lastseqno := seqno), [m], d.calls)
  }

  /** tnfs_decode for a request that names this session: a sequence number equal to the last recorded one
      is taken for a retry. */
  ghost function Deliver(cfg: Config, s: Session, seqno: U8, r: Request, env: Env): Delivered {
    if CmdAllowed(cfg.settings.readOnly, r.cmd) && seqno == s.lastseqno then Delivered(s, [s.lastmsg], [])
    else Perform(cfg, s, seqno, r, env)
  }

  // ---------- The saved reply ----------

  /** The saved message is a whole message of this session with the recorded sequence number. */
  ghost predicate SavedOk(s: Session) {
    && 5 <= |s.lastmsg| <= 532
    && s.lastmsg[..2] == Le16(s.sid) && s.lastmsg[2] == s.lastseqno
  }

  /** Every request keeps the saved reply well formed, never trips the size guard, and sends at most one
      datagram of legal size. */
  lemma SavedReplyInvariant(cfg: Config, s: Session, seqno: U8, r: Request, env: Env)
    requires SavedOk(s) && Namable(s.state)
    ensures var d := Deliver(cfg, s, seqno, r, env);
      && SavedOk(d.session) && Namable(d.session.state) && d.session.sid == s.sid
      && |d.sent| <= 1 && (forall m :: m in d.sent ==> 5 <= |m| <= 532)
      && (CmdAllowed(cfg.settings.readOnly, r.cmd) && seqno != s.lastseqno &&
          Handle(cfg, s.state, r.cmd, r.data, env).out.Recorded? ==>
            d.sent == [d.session.lastmsg] && d.session.lastseqno == seqno)
  {
    hide Handle;
    RepliesFit(cfg, s.state, r.cmd, r.data, env);
    HandleKeepsNamable(cfg, s.state, r.cmd, r.data, env);
  }

  // ---------- The end of a session ----------

  /** An UMOUNT that is performed ends the session. */
  predicate Ends(s: Session, seqno: U8, r: Request) {
    r.cmd == UMOUNT && seqno != s.lastseqno
  }

  /** What a request leads to when it names a session that is there, or one that is not. */
  datatype Served = Served(session: Option<Session>, sent: seq<seq<U8>>, calls: seq<OsCall>)

  /** A request to an ID that no session has. */
  function Unanswered(cfg: Config, seqno: U8, r: Request): Served {
    var status := if CmdAllowed(cfg.settings.readOnly, r.cmd) then Status.EBADSESSION else Status.EPERM;
    Served(None, [Message(0, seqno, r.cmd, status, [])], [])
  }

  /** tnfs_decode, for any command but MOUNT. */
  ghost function Serve(cfg: Config, o: Option<Session>, seqno: U8, r: Request, env: Env): Served {
    match o
    case None => Unanswered(cfg, seqno, r)
    case Some(s) =>
      var d := Deliver(cfg, s, seqno, r, env);
      Served(if Ends(s, seqno, r) then None else Some(d.session), d.sent, d.calls)
  }

  /** The same with no retransmission logic at all: the request is run. */
  ghost function Execute(cfg: Config, o: Option<Session>, seqno: U8, r: Request, env: Env): Served {
    match o
    case None => Unanswered(cfg, seqno, r)
    case Some(s) =>
      var d := Perform(cfg, s, seqno, r, env);
      Served(if r.cmd == UMOUNT then None else Some(d.session), d.sent, d.calls)
  }

  // ---------- A client and a channel ----------

  /** A request on its way: the surroundings in which its first copy arrives, and those of the further
      copies the channel or the client's retries produce. */
  datatype Visit = Visit(req: Request, env: Env, again: seq<Env>)

  function Next(seqno: U8): U8 {
    (seqno + 1) % 256
  }

  /** Everything a run leads to: what was sent for each copy of each request, in order. */
  datatype Trace = Trace(session: Option<Session>, sent: seq<seq<seq<seq<U8>>>>, calls: seq<OsCall>)

  /** What several requests, or copies, lead to: what was sent for each. */
  datatype Sequel = Sequel(session: Option<Session>, sent: seq<seq<seq<U8>>>, calls: seq<OsCall>)

  /** Further copies of a request, one after the other. */
  ghost function Copies(cfg: Config, o: Option<Session>, seqno: U8, r: Request, envs: seq<Env>): Sequel
    decreases |envs|
  {
    if envs == [] then Sequel(o, [], [])
    else
      var d := Serve(cfg, o, seqno, r, envs[0]);
      var rest := Copies(cfg, d.session, seqno, r, envs[1..]);
      Sequel(rest.session, [d.sent] + rest.sent, d.calls + rest.calls)
  }

  /** The server's side of a run in which every request arrives, possibly several times, before the next
      one is sent; sequence numbers go up by one per request. */
  ghost function Channel(cfg: Config, o: Option<Session>, seqno: U8, vs: seq<Visit>): Trace
    decreases |vs|
  {
    if vs == [] then Trace(o, [], [])
    else
      var d := Serve(cfg, o, seqno, vs[0].req, vs[0].env);
      var c := Copies(cfg, d.session, seqno, vs[0].req, vs[0].again);
      var rest := Channel(cfg, c.session, Next(seqno), vs[1..]);
      Trace(rest.session, [[d.sent] + c.sent] + rest.sent, d.calls + c.calls + rest.calls)
  }

  /** The same requests run exactly once each. */
  ghost function Once(cfg: Config, o: Option<Session>, seqno: U8, vs: seq<Visit>): Sequel
    decreases |vs|
  {
    if vs == [] then Sequel(o, [], [])
    else
      var d := Execute(cfg, o, seqno, vs[0].req, vs[0].env);
      var rest := Once(cfg, d.session, Next(seqno), vs[1..]);
      Sequel(rest.session, [d.sent] + rest.sent, d.calls + rest.calls)
  }

  /** The number of unrecorded requests in a row once r has run after `quiet` of them. */
  function Quiet(cfg: Config, r: Request, quiet: nat): nat {
    if Unsaved(cfg, r.cmd, r.data) then quiet + 1 else 0
  }

  /** How many requests in a row were not recorded, counting on from `quiet`. */
  function QuietAfter(cfg: Config, vs: seq<Visit>, quiet: nat): nat
    decreases |vs|
  {
    if vs == [] then quiet else QuietAfter(cfg, vs[1..], Quiet(cfg, vs[0].req, quiet))
  }

  /** A request that passes the gate does not come right after 255 unrecorded ones in a row (or 511, and
      so on: whenever the numbers have gone round). */
  predicate Fresh(cfg: Config, r: Request, quiet: nat) {
    CmdAllowed(cfg.settings.readOnly, r.cmd) ==> (quiet + 1) % 256 != 0
  }

  /** Every request up to the one that ends the session is fresh. */
  predicate Talks(cfg: Config, vs: seq<Visit>, quiet: nat)
    decreases |vs|
  {
    vs == [] || (Fresh(cfg, vs[0].req, quiet) &&
        (vs[0].req.cmd == UMOUNT || Talks(cfg, vs[1..], Quiet(cfg, vs[0].req, quiet))))
  }

  /** seqno is the next number of a client whose last `quiet` requests were not recorded. */
  predicate InStep(s: Session, seqno: U8, quiet: nat) {
    (s.lastseqno + quiet + 1) % 256 == seqno
  }

  /** Being fresh is exactly what keeps a new request from being taken for a retry. */
  lemma FreshIsPerformed(cfg: Config, s: Session, seqno: U8, r: Request, env: Env, quiet: nat)
    requires InStep(s, seqno, quiet)
    ensures Fresh(cfg, r, quiet) <==> !(CmdAllowed(cfg.settings.readOnly, r.cmd) && seqno == s.lastseqno)
    ensures Fresh(cfg, r, quiet) ==> Serve(cfg, Some(s), seqno, r, env) == Execute(cfg, Some(s), seqno, r, env)
    ensures !Fresh(cfg, r, quiet) ==> Serve(cfg, Some(s), seqno, r, env) == Served(Some(s), [s.lastmsg], [])
  {
    hide Perform;
    Wraps(s.lastseqno, quiet + 1);
  }

  lemma Wraps(a: U8, n: nat)
    ensures (a + n) % 256 == a <==> n % 256 == 0
  {
  }

  lemma StepsAdd(a: nat, b: nat)
    ensures (a % 256 + b) % 256 == (a + b) % 256
  {
  }

  lemma PerformKeepsStep(cfg: Config, s: Session, seqno: U8, r: Request, env: Env, quiet: nat)
    requires InStep(s, seqno, quiet) && Namable(s.state)
    ensures var d := Perform(cfg, s, seqno, r, env);
      && Namable(d.session.state)
      && InStep(d.session, Next(seqno), Quiet(cfg, r, quiet))
      && (if Unsaved(cfg, r.cmd, r.data) then d.session == s && d.calls == []
          else d.session.lastseqno == seqno && d.sent == [d.session.lastmsg])
  {
    hide Handle, Unsaved, Message;
    RepliesFit(cfg, s.state, r.cmd, r.data, env);
    HandleKeepsNamable(cfg, s.state, r.cmd, r.data, env);
    if CmdAllowed(cfg.settings.readOnly, r.cmd) {
      UnsavedHasNoEffect(cfg, s.state, r.cmd, r.data, env);
    } else {
      UnsavedWhenForbidden(cfg, r);
    }
  }

  lemma UnsavedWhenForbidden(cfg: Config, r: Request)
    requires !CmdAllowed(cfg.settings.readOnly, r.cmd)
    ensures Unsaved(cfg, r.cmd, r.data)
  {
  }

  /** What an unrecorded request is answered does not depend on when it arrives. */
  lemma UnsavedAnswer(cfg: Config, s: Session, seqno: U8, r: Request, env: Env, env': Env)
    requires Unsaved(cfg, r.cmd, r.data)
    ensures Perform(cfg, s, seqno, r, env) == Perform(cfg, s, seqno, r, env')
  {
    hide Handle, Unsaved, Message;
    if CmdAllowed(cfg.settings.readOnly, r.cmd) {
      UnsavedHasNoEffect(cfg, s.state, r.cmd, r.data, env);
      UnsavedHasNoEffect(cfg, s.state, r.cmd, r.data, env');
    }
  }

  lemma SavedIsAllowed(cfg: Config, r: Request)
    requires !Unsaved(cfg, r.cmd, r.data)
    ensures CmdAllowed(cfg.settings.readOnly, r.cmd)
  {
  }

  /** UMOUNT is never refused, always answered with success, and that answer is recorded in the session it
      ends. */
  lemma UmountIsAnswered(cfg: Config, s: Session, seqno: U8, data: seq<U8>, env: Env)
    ensures Execute(cfg, Some(s), seqno, Request(UMOUNT, data), env)
            == Served(None, [Message(s.sid, seqno, UMOUNT, Status.SUCCESS, [])], [])
  {
  }

  // ---------- Copies of one request ----------

  /** What a further copy of a request is answered: the bytes of the first answer, unless the request was
      an UMOUNT, which left no session to answer from. */
  function CopyAnswer(r: Request, seqno: U8, first: seq<seq<U8>>): seq<seq<U8>> {
    if r.cmd == UMOUNT then [Message(0, seqno, UMOUNT, Status.EBADSESSION, [])] else first
  }

  /** The state of a client's session, or none after its end. */
  predicate Ready(o: Option<Session>, seqno: U8, quiet: nat) {
    o.Some? ==> InStep(o.value, seqno, quiet) && Namable(o.value.state)
  }

  /** One further copy changes nothing and makes no call. */
  lemma CopyIsHarmless(cfg: Config, o: Option<Session>, seqno: U8, r: Request, env: Env, env': Env, quiet: nat)
    requires Ready(o, seqno, quiet) && (o.Some? ==> Fresh(cfg, r, quiet))
    ensures var d := Execute(cfg, o, seqno, r, env);
      Serve(cfg, d.session, seqno, r, env') == Served(d.session, CopyAnswer(r, seqno, d.sent), [])
  {
    if o.Some? && r.cmd != UMOUNT {
      hide Perform, Unsaved, Namable;
      PerformKeepsStep(cfg, o.value, seqno, r, env, quiet);
      FreshIsPerformed(cfg, o.value, seqno, r, env, quiet);
      if Unsaved(cfg, r.cmd, r.data) {
        UnsavedAnswer(cfg, o.value, seqno, r, env, env');
      } else {
        SavedIsAllowed(cfg, r);
      }
    }
  }

  /** Once a request has been performed, any number of further copies changes nothing, makes no call, and
      each gets the bytes of the first answer, or EBADSESSION after an UMOUNT. */
  lemma {:induction false} CopiesAreHarmless(cfg: Config, o: Option<Session>, seqno: U8, r: Request, env: Env,
      envs: seq<Env>, quiet: nat)
    requires Ready(o, seqno, quiet) && (o.Some? ==> Fresh(cfg, r, quiet))
    ensures var d := Execute(cfg, o, seqno, r, env);
      var c := Copies(cfg, d.session, seqno, r, envs);
      && c.session == d.session && c.calls == [] && |c.sent| == |envs|
      && forall i :: 0 <= i < |c.sent| ==> c.sent[i] == CopyAnswer(r, seqno, d.sent)
    decreases |envs|
  {
    hide Execute, Serve, Ready, Fresh, CopyAnswer;
    if envs != [] {
      CopyIsHarmless(cfg, o, seqno, r, env, envs[0], quiet);
      CopiesAreHarmless(cfg, o, seqno, r, env, envs[1..], quiet);
    }
  }

  /** A further copy gets the bytes of the first answer if and only if the request was not an UMOUNT. */
  lemma OnlyUmountIsAnsweredAnew(cfg: Config, s: Session, seqno: U8, r: Request, env: Env, env': Env, quiet: nat)
    requires InStep(s, seqno, quiet) && Namable(s.state) && Fresh(cfg, r, quiet)
    ensures var d := Serve(cfg, Some(s), seqno, r, env);
      Serve(cfg, d.session, seqno, r, env').sent == d.sent <==> r.cmd != UMOUNT
  {
    hide Perform, Deliver, Namable, InStep, Fresh;
    CopyIsHarmless(cfg, Some(s), seqno, r, env, env', quiet);
    FreshIsPerformed(cfg, s, seqno, r, env, quiet);
    if r.cmd == UMOUNT {
      UmountIsAnswered(cfg, s, seqno, r.data, env);
      var first, again := Status.SUCCESS, Status.EBADSESSION;
      assert Message(s.sid, seqno, UMOUNT, first, [])[4] != Message(0, seqno, UMOUNT, again, [])[4];
    }
  }

  // ---------- Exactly once ----------

  /** The first copy of a request was answered with these bytes, and each further one as a copy of it is. */
  predicate AnsweredAs(sent: seq<seq<seq<U8>>>, once: seq<seq<U8>>, v: Visit, seqno: U8) {
    && |sent| == 1 + |v.again| && sent[0] == once
    && forall c :: 1 <= c < |sent| ==> sent[c] == CopyAnswer(v.req, seqno, once)
  }

  /** Every request was answered with the bytes the single execution sends for it. */
  ghost predicate SameAnswers(sent: seq<seq<seq<seq<U8>>>>, once: seq<seq<seq<U8>>>, vs: seq<Visit>, seqno: U8) {
    && |sent| == |once| == |vs|
    && forall i :: 0 <= i < |vs| ==> AnsweredAs(sent[i], once[i], vs[i], (seqno + i) % 256)
  }

  lemma ReadyAfter(cfg: Config, o: Option<Session>, seqno: U8, r: Request, env: Env, quiet: nat)
    requires Ready(o, seqno, quiet) && (o.Some? ==> Fresh(cfg, r, quiet))
    ensures Serve(cfg, o, seqno, r, env) == Execute(cfg, o, seqno, r, env)
    ensures Ready(Execute(cfg, o, seqno, r, env).session, Next(seqno), Quiet(cfg, r, quiet))
    ensures o.None? || r.cmd == UMOUNT ==> Execute(cfg, o, seqno, r, env).session.None?
  {
    if o.Some? {
      hide Perform, Namable, Fresh, InStep, Next, Quiet;
      PerformKeepsStep(cfg, o.value, seqno, r, env, quiet);
      FreshIsPerformed(cfg, o.value, seqno, r, env, quiet);
    }
  }

  lemma AnswersOfFirst(sent: seq<seq<seq<seq<U8>>>>, once: seq<seq<seq<U8>>>, vs: seq<Visit>, seqno: U8,
      first: seq<seq<U8>>, copies: seq<seq<seq<U8>>>)
    requires vs != [] && SameAnswers(sent, once, vs[1..], Next(seqno)) && |copies| == |vs[0].again|
    requires forall i :: 0 <= i < |copies| ==> copies[i] == CopyAnswer(vs[0].req, seqno, first)
    ensures SameAnswers([[first] + copies] + sent, [first] + once, vs, seqno)
  {
    var s, o := [[first] + copies] + sent, [first] + once;
    assert AnsweredAs(s[0], o[0], vs[0], seqno);
    hide AnsweredAs;
    forall i | 1 <= i < |vs|
      ensures AnsweredAs(s[i], o[i], vs[i], (seqno + i) % 256)
    {
      assert vs[i] == vs[1..][i - 1] && s[i] == sent[i - 1] && o[i] == once[i - 1];
      StepsAdd(seqno + 1, i - 1);
    }
  }

  /** Over a channel that loses and duplicates but does not reorder, a client that never leaves 255
      unrecorded requests in a row sees exactly-once execution: the session or its end, the handles, the
      calls to the operating system and every answer are those of running each request once, but for the
      answers to further copies of an UMOUNT. */
  lemma {:induction false} ExactlyOnce(cfg: Config, o: Option<Session>, seqno: U8, vs: seq<Visit>, quiet: nat)
    requires Ready(o, seqno, quiet) && (o.Some? ==> Talks(cfg, vs, quiet))
    ensures var t := Channel(cfg, o, seqno, vs);
      var u := Once(cfg, o, seqno, vs);
      t.session == u.session && t.calls == u.calls && SameAnswers(t.sent, u.sent, vs, seqno)
    decreases |vs|
  {
    hide Serve, Execute, Copies, Ready, Fresh, Quiet, Next, SameAnswers, CopyAnswer;
    if vs == [] {
      NoAnswers(seqno);
    } else {
      var v := vs[0];
      var d := Execute(cfg, o, seqno, v.req, v.env);
      ReadyAfter(cfg, o, seqno, v.req, v.env, quiet);
      CopiesAreHarmless(cfg, o, seqno, v.req, v.env, v.again, quiet);
      ExactlyOnce(cfg, d.session, Next(seqno), vs[1..], Quiet(cfg, v.req, quiet));
      var c := Copies(cfg, d.session, seqno, v.req, v.again);
      var rest := Channel(cfg, d.session, Next(seqno), vs[1..]);
      AnswersOfFirst(rest.sent, Once(cfg, d.session, Next(seqno), vs[1..]).sent, vs, seqno, d.sent, c.sent);
    }
  }

  lemma NoAnswers(seqno: U8)
    ensures SameAnswers([], [], [], seqno)
  {
  }

  lemma {:induction false} ChannelKeepsStep(cfg: Config, o: Option<Session>, seqno: U8, vs: seq<Visit>, quiet: nat)
    requires Ready(o, seqno, quiet) && (o.Some? ==> Talks(cfg, vs, quiet))
    ensures Ready(Channel(cfg, o, seqno, vs).session, (seqno + |vs|) % 256, QuietAfter(cfg, vs, quiet))
    decreases |vs|
  {
    hide Serve, Execute, Copies, Ready, Fresh, Quiet;
    if vs != [] {
      var v := vs[0];
      ReadyAfter(cfg, o, seqno, v.req, v.env, quiet);
      CopiesAreHarmless(cfg, o, seqno, v.req, v.env, v.again, quiet);
      StepsAdd(seqno + 1, |vs| - 1);
      ChannelKeepsStep(cfg, Execute(cfg, o, seqno, v.req, v.env).session, Next(seqno), vs[1..],
          Quiet(cfg, v.req, quiet));
    }
  }

  /** The bound is exact: after a run that leaves 255 unrecorded requests in a row, the next one that
      passes the gate carries the recorded number again. It is taken for a retry, is not performed, and is
      answered with the reply saved before them. */
  lemma LongSilenceLosesRequest(cfg: Config, o: Option<Session>, seqno: U8, vs: seq<Visit>, quiet: nat,
      r: Request, env: Env)
    requires Ready(o, seqno, quiet) && (o.Some? ==> Talks(cfg, vs, quiet))
    requires Channel(cfg, o, seqno, vs).session.Some?
    ensures var t := Channel(cfg, o, seqno, vs).session;
      var d := Serve(cfg, t, (seqno + |vs|) % 256, r, env);
      if Fresh(cfg, r, QuietAfter(cfg, vs, quiet)) then d == Execute(cfg, t, (seqno + |vs|) % 256, r, env)
      else d == Served(t, [t.value.lastmsg], [])
  {
    hide Execute, Serve, Channel, Talks, InStep, Fresh, Namable;
    ChannelKeepsStep(cfg, o, seqno, vs, quiet);
    FreshIsPerformed(cfg, Channel(cfg, o, seqno, vs).session.value, (seqno + |vs|) % 256, r, env,
        QuietAfter(cfg, vs, quiet));
  }

  /** CHMOD n times, each arriving once. */
  function Chmods(n: nat, env: Env): (vs: seq<Visit>)
    ensures |vs| == n
  {
    if n == 0 then [] else [Visit(Request(CHMODFILE, []), env, [])] + Chmods(n - 1, env)
  }

  lemma {:induction false} ChmodsAreQuiet(cfg: Config, n: nat, env: Env, quiet: nat)
    requires quiet + n <= 255
    ensures Talks(cfg, Chmods(n, env), quiet) && QuietAfter(cfg, Chmods(n, env), quiet) == quiet + n
  {
    if n > 0 {
      assert Chmods(n, env)[1..] == Chmods(n - 1, env);
      ChmodsAreQuiet(cfg, n - 1, env, quiet + 1);
    }
  }

  lemma {:induction false} ChmodsKeepSession(cfg: Config, s: Session, seqno: U8, n: nat, env: Env, quiet: nat)
    requires InStep(s, seqno, quiet) && Namable(s.state) && quiet + n <= 255
    ensures Channel(cfg, Some(s), seqno, Chmods(n, env)).session == Some(s)
    decreases n
  {
    if n > 0 {
      hide Perform, Namable;
      var r := Request(CHMODFILE, []);
      assert Chmods(n, env)[1..] == Chmods(n - 1, env);
      FreshIsPerformed(cfg, s, seqno, r, env, quiet);
      PerformKeepsStep(cfg, s, seqno, r, env, quiet);
      ChmodsKeepSession(cfg, s, Next(seqno), n - 1, env, quiet + 1);
    }
  }

  /** Such a run exists for every session: after 255 CHMODs, which are never recorded, the next request the
      gate lets through is lost. */
  lemma ChmodsLoseRequest(cfg: Config, s: Session, env: Env, r: Request)
    requires Namable(s.state) && CmdAllowed(cfg.settings.readOnly, r.cmd)
    ensures var vs := Chmods(255, env);
      var t := Channel(cfg, Some(s), Next(s.lastseqno), vs).session;
      && Talks(cfg, vs, 0) && !Fresh(cfg, r, QuietAfter(cfg, vs, 0))
      && t == Some(s) && Serve(cfg, t, s.lastseqno, r, env) == Served(Some(s), [s.lastmsg], [])
  {
    hide Serve, Channel, Namable;
    ChmodsAreQuiet(cfg, 255, env, 0);
    ChmodsKeepSession(cfg, s, Next(s.lastseqno), 255, env, 0);
    LongSilenceLosesRequest(cfg, Some(s), Next(s.lastseqno), Chmods(255, env), 0, r, env);
  }

  // ---------- Any requests ----------

  /** A request as it arrives. */
  datatype Datagram = Datagram(seqno: U8, req: Request, env: Env)

  /** The session in the end, what was sent for each request, and all calls made. */
  datatype Total = Total(session: Option<Session>, sent: seq<seq<seq<U8>>>, calls: seq<OsCall>)

  /** Requests in any numbers and any order, one after the other. */
  ghost function ServeAll(cfg: Config, o: Option<Session>, ds: seq<Datagram>): Total
    decreases |ds|
  {
    if ds == [] then Total(o, [], [])
    else
      var d := Serve(cfg, o, ds[0].seqno, ds[0].req, ds[0].env);
      var rest := ServeAll(cfg, d.session, ds[1..]);
      Total(rest.session, [d.sent] + rest.sent, d.calls + rest.calls)
  }

  lemma ServeReadOnly(cfg: Config, o: Option<Session>, seqno: U8, r: Request, env: Env)
    requires cfg.settings.readOnly
    ensures forall c :: c in Serve(cfg, o, seqno, r, env).calls ==> !Changes(c)
  {
    hide Handle, Message;
    if o.Some? && CmdAllowed(true, r.cmd) {
      ReadOnlyCallsOnlyRead(cfg, o.value.state, r.cmd, r.data, env);
    }
  }

  /** In read-only mode no requests, numbered, ordered and repeated in any way, lead to a call that can
      change the file system. */
  lemma {:induction false} ReadOnlyRunsChangeNothing(cfg: Config, o: Option<Session>, ds: seq<Datagram>)
    requires cfg.settings.readOnly
    ensures forall c :: c in ServeAll(cfg, o, ds).calls ==> !Changes(c)
    decreases |ds|
  {
    hide Serve;
    if ds != [] {
      ServeReadOnly(cfg, o, ds[0].seqno, ds[0].req, ds[0].env);
      ReadOnlyRunsChangeNothing(cfg, Serve(cfg, o, ds[0].seqno, ds[0].req, ds[0].env).session, ds[1..]);
    }
  }

  /** The first request, and then the others. */
  lemma ServeFirst(cfg: Config, o: Option<Session>, d: Datagram, ds: seq<Datagram>)
    ensures var r := Serve(cfg, o, d.seqno, d.req, d.env);
      var rest := ServeAll(cfg, r.session, ds);
      ServeAll(cfg, o, [d] + ds) == Total(rest.session, [r.sent] + rest.sent, r.calls + rest.calls)
  {
    hide Serve;
    assert ([d] + ds)[0] == d && ([d] + ds)[1..] == ds;
  }

  lemma Regroup<T>(a: seq<T>, b: seq<T>, c: seq<T>)
    ensures a + (b + c) == a + b + c
  {
  }

  lemma Split<T>(s: seq<T>)
    requires s != []
    ensures [s[0]] + s[1..] == s
  {
  }

  lemma {:induction false} ServeAllJoins(cfg: Config, o: Option<Session>, a: seq<Datagram>, b: seq<Datagram>)
    ensures var t := ServeAll(cfg, o, a);
      var u := ServeAll(cfg, t.session, b);
      ServeAll(cfg, o, a + b) == Total(u.session, t.sent + u.sent, t.calls + u.calls)
    decreases |a|
  {
    if a == [] {
      hide Serve;
      assert a + b == b;
    } else {
      hide Serve, ServeAll;
      var r := Serve(cfg, o, a[0].seqno, a[0].req, a[0].env);
      var t := ServeAll(cfg, r.session, a[1..]);
      Split(a);
      Regroup([a[0]], a[1..], b);
      ServeFirst(cfg, o, a[0], a[1..]);
      ServeFirst(cfg, o, a[0], a[1..] + b);
      ServeAllJoins(cfg, r.session, a[1..], b);
      Regroup(r.calls, t.calls, ServeAll(cfg, t.session, b).calls);
      Regroup([r.sent], t.sent, ServeAll(cfg, t.session, b).sent);
    }
  }

  function CopiesOf(seqno: U8, r: Request, envs: seq<Env>): seq<Datagram>
    decreases |envs|
  {
    if envs == [] then [] else [Datagram(seqno, r, envs[0])] + CopiesOf(seqno, r, envs[1..])
  }

  /** The arrivals of a run over the channel, in order. */
  function Arrivals(seqno: U8, vs: seq<Visit>): seq<Datagram>
    decreases |vs|
  {
    if vs == [] then []
    else
      [Datagram(seqno, vs[0].req, vs[0].env)]
      + (CopiesOf(seqno, vs[0].req, vs[0].again) + Arrivals(Next(seqno), vs[1..]))
  }

  /** What was sent for every copy of every request, in one sequence. */
  function Flat(sent: seq<seq<seq<seq<U8>>>>): seq<seq<seq<U8>>>
    decreases |sent|
  {
    if sent == [] then [] else sent[0] + Flat(sent[1..])
  }

  lemma FlatFirst(first: seq<seq<seq<U8>>>, rest: seq<seq<seq<seq<U8>>>>)
    ensures Flat([first] + rest) == first + Flat(rest)
  {
  }

  lemma {:induction false} CopiesAreArrivals(cfg: Config, o: Option<Session>, seqno: U8, r: Request, envs: seq<Env>)
    ensures var c := Copies(cfg, o, seqno, r, envs);
      ServeAll(cfg, o, CopiesOf(seqno, r, envs)) == Total(c.session, c.sent, c.calls)
    decreases |envs|
  {
    hide Serve;
    if envs != [] {
      hide ServeAll;
      ServeFirst(cfg, o, Datagram(seqno, r, envs[0]), CopiesOf(seqno, r, envs[1..]));
      CopiesAreArrivals(cfg, Serve(cfg, o, seqno, r, envs[0]).session, seqno, r, envs[1..]);
    }
  }

  /** The first request of a run with its further copies, and the run after it. */
  lemma ChannelFirst(cfg: Config, o: Option<Session>, seqno: U8, vs: seq<Visit>)
    requires vs != []
    ensures var v := vs[0];
      var d := Serve(cfg, o, seqno, v.req, v.env);
      var c := Copies(cfg, d.session, seqno, v.req, v.again);
      var rest := Channel(cfg, c.session, Next(seqno), vs[1..]);
      Channel(cfg, o, seqno, vs) == Trace(rest.session, [[d.sent] + c.sent] + rest.sent, d.calls + c.calls + rest.calls)
  {
  }

  /** A run over the channel is its arrivals served one after the other. */
  lemma {:induction false} ChannelIsArrivals(cfg: Config, o: Option<Session>, seqno: U8, vs: seq<Visit>)
    ensures var t := Channel(cfg, o, seqno, vs);
      ServeAll(cfg, o, Arrivals(seqno, vs)) == Total(t.session, Flat(t.sent), t.calls)
    decreases |vs|
  {
    if vs != [] {
      hide Serve, Copies, Next, ServeAll, CopiesOf, Channel, Flat;
      var v := vs[0];
      var copies, rest := CopiesOf(seqno, v.req, v.again), Arrivals(Next(seqno), vs[1..]);
      var d := Serve(cfg, o, seqno, v.req, v.env);
      var c := Copies(cfg, d.session, seqno, v.req, v.again);
      var u := Channel(cfg, c.session, Next(seqno), vs[1..]);
      ChannelFirst(cfg, o, seqno, vs);
      ServeFirst(cfg, o, Datagram(seqno, v.req, v.env), copies + rest);
      ServeAllJoins(cfg, d.session, copies, rest);
      CopiesAreArrivals(cfg, d.session, seqno, v.req, v.again);
      ChannelIsArrivals(cfg, c.session, Next(seqno), vs[1..]);
      FlatFirst([d.sent] + c.sent, u.sent);
      Regroup([d.sent], c.sent, Flat(u.sent));
      Regroup(d.calls, c.calls, u.calls);
    }
  }
}
