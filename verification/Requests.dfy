/** What one request does, in the client's terms (src/datagram.c): the bytes it sends and the bytes it gets, the
    handler that runs, and what one request leaves for the next. */
module Requests {
  import opened CStrings
  import opened Endian
  import opened Listing
  import opened DirHandle
  import opened Handles
  import opened Paging
  import opened FileCommands
  import opened Auth
  import opened DirCommands
  import opened Commands
  import opened Protocol
  import opened Server
  import Paths

  // ---------- The client's side of a message ----------

  /** A request: session ID low byte first, number, command, data. */
  function Composed(sid: U16, seqno: U8, cmd: U8, data: seq<U8>): Packet {
    [sid % 256, sid / 256 % 256, seqno, cmd] + data
  }

  /** A reply as the client takes it apart. */
  datatype Understood = Understood(sid: int, seqno: U8, cmd: U8, status: U8, payload: seq<U8>)

  function Understand(m: seq<U8>): Understood
    requires |m| >= 5
  {
    Understood((m[0] as int) + 256 * (m[1] as int), m[2], m[3], m[4], m[5..])
  }

  /** The server reads from a request what the client put there. */
  lemma RequestIsRead(a: Arrival, sid: U16, seqno: U8, cmd: U8, data: seq<U8>)
    requires a.bytes == Composed(sid, seqno, cmd, data)
    ensures a.Sid() == sid && a.Seqno() == seqno && a.Cmd() == cmd && a.Data() == data
  {
    assert a.bytes[..2] == [sid % 256, sid / 256 % 256];
    assert a.bytes[4..] == data;
  }

  /** The client reads from a reply what the server put there. */
  lemma ReplyIsRead(sid: U16, seqno: U8, cmd: U8, status: U8, payload: seq<U8>)
    ensures Understand(Message(sid, seqno, cmd, status, payload)) == Understood(sid, seqno, cmd, status, payload)
  {
    var m := Message(sid, seqno, cmd, status, payload);
    assert m[5..] == payload;
    assert sid == sid % 256 + 256 * (sid / 256 % 256);
  }

  // ---------- One request ----------

  /** What a client is told: nothing, a status that belongs to no session, or the handler's reply. */
  ghost predicate Hears(sent: seq<seq<U8>>, sid: U16, seqno: U8, cmd: U8, out: Out) {
    match out
    case Silent => sent == []
    case Refused(status) =>
      |sent| == 1 && |sent[0]| >= 5 && Understand(sent[0]) == Understood(0, seqno, cmd, status, [])
    case Recorded(reply) =>
      && |sent| == 1 && |sent[0]| >= 5
      && Understand(sent[0]) == Understood(sid, seqno, cmd, reply.status, reply.payload)
  }

  /** A request that is neither refused by the gate nor a retry leaves exactly the state its handler leaves,
      makes its calls and sends its reply; a reply of the session's is saved with its number. A refused one is
      told so, a retry gets the saved bytes, and both leave all as it is. */
  lemma ServeDoes(cfg: Config, s: Session, seqno: U8, r: Request, env: Env)
    requires Namable(s.state)
    ensures var d := Serve(cfg, Some(s), seqno, r, env);
      var h := Commands.Handle(cfg, s.state, r.cmd, r.data, env);
      if !CmdAllowed(cfg.settings.readOnly, r.cmd) then
        d.session == Some(s) && d.calls == [] && Hears(d.sent, s.sid, seqno, r.cmd, Refused(1))
      else if seqno == s.lastseqno then d == Served(Some(s), [s.lastmsg], [])
      else
        && d.calls == h.calls && Hears(d.sent, s.sid, seqno, r.cmd, h.out)
        && if r.cmd == 1 then d.session == None
           else
             d.session == Some(if h.out.Recorded? then Session(s.sid, h.state, d.sent[0], seqno)
                               else Session(s.sid, h.state, s.lastmsg, s.lastseqno))
  {
    hide Commands.Handle, Message;
    var h := Commands.Handle(cfg, s.state, r.cmd, r.data, env);
    RepliesFit(cfg, s.state, r.cmd, r.data, env);
    ReplyIsRead(0, seqno, r.cmd, 1, []);
    match h.out
    case Silent =>
    case Refused(status) => ReplyIsRead(0, seqno, r.cmd, status, []);
    case Recorded(reply) => ReplyIsRead(s.sid, seqno, r.cmd, reply.status, reply.payload);
  }

  // ---------- Runs of requests ----------

  /** What handlers leave, say and call: the state, or none after an UMOUNT. */
  datatype Work = Work(state: Option<State>, outs: seq<Out>, calls: seq<OsCall>)

  datatype Deed = Deed(state: Option<State>, out: Out, calls: seq<OsCall>)

  /** One request straight to its handler. */
  ghost function HandleOnce(cfg: Config, o: Option<State>, r: Request, env: Env): Deed {
    if !CmdAllowed(cfg.settings.readOnly, r.cmd) then Deed(o, Refused(1), [])
    else
      match o
      case None => Deed(None, Refused(0xFF), [])
      case Some(st) =>
        var h := Commands.Handle(cfg, st, r.cmd, r.data, env);
        Deed(if r.cmd == 1 then None else Some(h.state), h.out, h.calls)
  }

  /** The requests straight to their handlers, one after the other. */
  ghost function HandleAll(cfg: Config, o: Option<State>, vs: seq<Visit>): Work
    decreases |vs|
  {
    if vs == [] then Work(o, [], [])
    else
      var h := HandleOnce(cfg, o, vs[0].req, vs[0].env);
      var rest := HandleAll(cfg, h.state, vs[1..]);
      Work(rest.state, [h.out] + rest.outs, h.calls + rest.calls)
  }

  function StateOf(o: Option<Session>): Option<State> {
    match o case None => None case Some(s) => Some(s.state)
  }

  /** The ID that answers carry. */
  function IdOf(o: Option<Session>): U16 {
    match o case None => 0 case Some(s) => s.sid
  }

  lemma ExecuteHandles(cfg: Config, o: Option<Session>, seqno: U8, r: Request, env: Env)
    requires o.Some? ==> Namable(o.value.state)
    ensures var d := Execute(cfg, o, seqno, r, env);
      var h := HandleOnce(cfg, StateOf(o), r, env);
      && StateOf(d.session) == h.state && d.calls == h.calls && Hears(d.sent, IdOf(o), seqno, r.cmd, h.out)
      && (d.session.Some? ==> IdOf(d.session) == IdOf(o))
      && (StateOf(o).None? ==> !h.out.Recorded? && h.state.None?)
  {
    hide Commands.Handle, Message;
    ReplyIsRead(0, seqno, r.cmd, 1, []);
    ReplyIsRead(0, seqno, r.cmd, 0xFF, []);
    if o.Some? && CmdAllowed(cfg.settings.readOnly, r.cmd) {
      var h := Commands.Handle(cfg, o.value.state, r.cmd, r.data, env);
      RepliesFit(cfg, o.value.state, r.cmd, r.data, env);
      if r.cmd == 1 {
        UmountOnly(cfg, o.value.state, r.data, env);
      }
      match h.out
      case Silent =>
      case Refused(status) => ReplyIsRead(0, seqno, r.cmd, status, []);
      case Recorded(reply) => ReplyIsRead(o.value.sid, seqno, r.cmd, reply.status, reply.payload);
    }
  }

  lemma UmountOnly(cfg: Config, st: State, data: seq<U8>, env: Env)
    ensures Commands.Handle(cfg, st, 1, data, env) == Done(st, Recorded(Reply(0, [])), [])
  {
  }

  /** The first copies of n requests numbered from seqno on were answered as their handlers said. */
  ghost predicate AllHear(sent: seq<seq<seq<seq<U8>>>>, sid: U16, seqno: U8, vs: seq<Visit>, outs: seq<Out>) {
    && |sent| == |vs| == |outs|
    && forall i :: 0 <= i < |vs| ==>
         sent[i] != [] && Hears(sent[i][0], sid, (seqno + i) % 256, vs[i].req.cmd, outs[i])
  }

  lemma TellMore(
    first: seq<seq<seq<U8>>>, sent: seq<seq<seq<seq<U8>>>>, sid: U16, seqno: U8, vs: seq<Visit>, out: Out,
        outs: seq<Out>)
    requires vs != [] && first != [] && Hears(first[0], sid, seqno, vs[0].req.cmd, out)
    requires AllHear(sent, sid, Next(seqno), vs[1..], outs)
    ensures AllHear([first] + sent, sid, seqno, vs, [out] + outs)
  {
    hide Hears;
    assert (seqno + 0) % 256 == seqno;
    forall i | 1 <= i < |vs|
      ensures ([first] + sent)[i] != []
      ensures Hears(([first] + sent)[i][0], sid, (seqno + i) % 256, vs[i].req.cmd, ([out] + outs)[i])
    {
      assert vs[i] == vs[1..][i - 1];
      StepsAdd(seqno + 1, i - 1);
    }
  }

  lemma UnrecordedId(sent: seq<seq<seq<seq<U8>>>>, sid: U16, sid': U16, seqno: U8, vs: seq<Visit>, outs: seq<Out>)
    requires AllHear(sent, sid, seqno, vs, outs) && forall out :: out in outs ==> !out.Recorded?
    ensures AllHear(sent, sid', seqno, vs, outs)
  {
    forall i | 0 <= i < |vs|
      ensures sent[i] != [] && Hears(sent[i][0], sid', (seqno + i) % 256, vs[i].req.cmd, outs[i])
    {
      assert Hears(sent[i][0], sid, (seqno + i) % 256, vs[i].req.cmd, outs[i]) && outs[i] in outs;
    }
  }

  lemma {:induction false} NoneRecords(cfg: Config, vs: seq<Visit>)
    ensures forall out :: out in HandleAll(cfg, None, vs).outs ==> !out.Recorded?
    decreases |vs|
  {
    hide Commands.Handle;
    if vs != [] {
      var h := HandleOnce(cfg, None, vs[0].req, vs[0].env);
      NoneRecords(cfg, vs[1..]);
      assert HandleAll(cfg, None, vs).outs == [h.out] + HandleAll(cfg, None, vs[1..]).outs;
    }
  }

  /** Exactly once, in terms of the handlers alone: over a channel that loses and duplicates, the session's state,
      the calls made and what the client is told first for each request are those of running the handlers one
      after the other, each on the state the one before left. */
  lemma {:induction false} ExactlyOnceHandled(cfg: Config, o: Option<Session>, seqno: U8, vs: seq<Visit>, quiet: nat)
    requires Ready(o, seqno, quiet) && (o.Some? ==> Talks(cfg, vs, quiet))
    ensures var t := Channel(cfg, o, seqno, vs);
      var w := HandleAll(cfg, StateOf(o), vs);
      StateOf(t.session) == w.state && t.calls == w.calls && AllHear(t.sent, IdOf(o), seqno, vs, w.outs)
    decreases |vs|
  {
    hide Serve, Execute, Copies, Ready, Fresh, Quiet, Next, HandleOnce, Hears, AllHear, Commands.Handle;
    if vs == [] {
      NothingHeard(IdOf(o), seqno);
    } else {
      var v := vs[0];
      var d := Execute(cfg, o, seqno, v.req, v.env);
      var h := HandleOnce(cfg, StateOf(o), v.req, v.env);
      ReadyIsNamable(o, seqno, quiet);
      ReadyAfter(cfg, o, seqno, v.req, v.env, quiet);
      CopiesAreHarmless(cfg, o, seqno, v.req, v.env, v.again, quiet);
      ExecuteHandles(cfg, o, seqno, v.req, v.env);
      var c := Copies(cfg, d.session, seqno, v.req, v.again);
      var rest := Channel(cfg, d.session, Next(seqno), vs[1..]);
      var w := HandleAll(cfg, h.state, vs[1..]);
      ExactlyOnceHandled(cfg, d.session, Next(seqno), vs[1..], Quiet(cfg, v.req, quiet));
      if d.session.None? {
        NoneRecords(cfg, vs[1..]);
        UnrecordedId(rest.sent, IdOf(d.session), IdOf(o), Next(seqno), vs[1..], w.outs);
      }
      TellMore([d.sent] + c.sent, rest.sent, IdOf(o), seqno, vs, h.out, w.outs);
    }
  }

  lemma NothingHeard(sid: U16, seqno: U8)
    ensures AllHear([], sid, seqno, [], [])
  {
  }

  lemma ReadyIsNamable(o: Option<Session>, seqno: U8, quiet: nat)
    requires Ready(o, seqno, quiet)
    ensures o.Some? ==> Namable(o.value.state)
  {
  }
}
