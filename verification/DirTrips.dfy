/** A directory stream through its requests (src/directory.c, src/datagram.c): OPENDIR, READDIR on the handle it
    answered, CLOSEDIR, and READDIR again. */
module DirTrips {
  import opened CStrings
  import opened Endian
  import opened Listing
  import opened DirHandle
  import opened Handles
  import opened Paging
  import opened FileCommands
  import opened Auth
  import opened DirCommands
  import opened Commands
  import opened Protocol
  import opened Requests
  import Paths

  /** Handle h of the session has stream x. */
  predicate Streams(st: State, h: U8, x: nat) {
    h < |st.slots| && st.slots[h].open && !st.slots[h].loaded && st.slots[h].stream == x
  }

  /** With a handle to spare, OPENDIR asks for the path and keeps the stream it is given in the handle it
      answers. */
  lemma OpenDirKeepsStream(cfg: Config, st: State, dir: CString, env: Env) returns (h: U8)
    requires AllOk(st.slots) && !env.os.failed && exists i :: 0 <= i < |st.slots| && !st.slots[i].open
    ensures var d := Commands.Handle(cfg, st, 0x10, Paths.Sent(dir), env);
      && d.out == Recorded(Reply(0, [h])) && d.calls == [CallOpenDir(DirPath(cfg, st, dir, env.inside))]
      && Streams(d.state, h, env.os.number)
  {
    hide DirPath, Choose, Paths.NameIn;
    var path := DirPath(cfg, st, dir, env.inside);
    var k := Key(path, 0, 0, None);
    assert Paths.Sent(dir) + [] == Paths.Sent(dir);
    Paths.NameInSent(dir, []);
    ChoiceGuarantees(st.slots, k, false, env.now);
    h := Choose(st.slots, k, false, env.now).index;
  }

  /** READDIR reads the stream of its handle; the answer is the name it yields, as far as 255 characters, or end
      of file. */
  lemma ReadDirReads(cfg: Config, st: State, h: U8, x: nat, env: Env)
    requires Streams(st, h, x) && x != 0
    ensures var d := Commands.Handle(cfg, st, 0x11, [h], env);
      && d.calls == [CallReadDir(x)] && d.state == st
      && (env.os.failed ==> d.out == Recorded(Reply(0x21, [])))
      && forall name, rest :: !env.os.failed && env.os.bytes == Paths.Sent(name) + rest && |name| < 256 ==>
           d.out == Recorded(Reply(0, Paths.Sent(name)))
  {
    var d := Commands.Handle(cfg, st, 0x11, [h], env);
    assert HandleOf(st, [h], 1) == Some(h as nat);
    forall name, rest | !env.os.failed && env.os.bytes == Paths.Sent(name) + rest && |name| < 256
      ensures d.out == Recorded(Reply(0, Paths.Sent(name)))
    {
      Paths.NameInSent(name, rest);
      assert Bytes(name) + [0] == Paths.Sent(name);
    }
  }

  /** CLOSEDIR gives the stream up, and a handle that is not open is not read. */
  lemma CloseDirEnds(cfg: Config, st: State, h: U8, x: nat, env: Env)
    requires Streams(st, h, x)
    ensures var d := Commands.Handle(cfg, st, 0x12, [h], env);
      && d.out == Recorded(Reply(0, [])) && |d.state.slots| == |st.slots|
      && d.state == st.(slots := st.slots[h := d.state.slots[h]])
      && !d.state.slots[h].open && d.state.slots[h].stream == 0
  {
    assert HandleOf(st, [h], 1) == Some(h as nat);
    assert st.slots == st.slots[h := st.slots[h]];
  }

  lemma ClosedIsNotRead(cfg: Config, st: State, h: U8, env: Env)
    requires h < |st.slots| && !st.slots[h].open
    ensures Commands.Handle(cfg, st, 0x11, [h], env) == Done(st, Recorded(Reply(6, [])), [])
  {
    assert HandleOf(st, [h], 1) == Some(h as nat);
  }

  /** TELLDIR and SEEKDIR on a stream ask the operating system, with the position of the request. */
  lemma StreamPositions(cfg: Config, st: State, h: U8, x: nat, v: U32, env: Env)
    requires Streams(st, h, x) && x != 0 && SlotOk(st.slots[h])
    ensures var d := Commands.Handle(cfg, st, 0x15, [h], env);
      d == Done(st, Recorded(Reply(0, Le32(env.os.number % 0x1_0000_0000))), [CallTellDir(x)])
    ensures Commands.Handle(cfg, st, 0x16, [h] + Le32(v), env) == Done(st, Recorded(Reply(0, [])), [CallSeekDir(x, v)])
  {
    var data: seq<U8> := [h] + Le32(v);
    assert data[1..5] == Le32(v);
    RoundTrip32(v, []);
    hide Le32, FromLe32;
    assert HandleOf(st, [h], 1) == Some(h as nat) && HandleOf(st, data, 5) == Some(h as nat);
  }

  /** Four requests, each with a number of its own. */
  datatype Four = Four(opening: Served, reading: Served, closing: Served, again: Served)

  ghost function RunFour(cfg: Config, s: Session, n: seq<U8>, dir: CString, h: U8, env: seq<Env>): Four
    requires |n| == 4 == |env|
  {
    var a := Serve(cfg, Some(s), n[0], Request(0x10, Paths.Sent(dir)), env[0]);
    var b := Serve(cfg, a.session, n[1], Request(0x11, [h]), env[1]);
    var c := Serve(cfg, b.session, n[2], Request(0x12, [h]), env[2]);
    Four(a, b, c, Serve(cfg, c.session, n[3], Request(0x11, [h]), env[3]))
  }

  lemma ServeReplies(cfg: Config, s: Session, seqno: U8, r: Request, env: Env, reply: Reply)
    requires Namable(s.state) && CmdAllowed(cfg.settings.readOnly, r.cmd) && seqno != s.lastseqno && r.cmd != 1
    requires Commands.Handle(cfg, s.state, r.cmd, r.data, env).out == Recorded(reply)
    ensures var d := Serve(cfg, Some(s), seqno, r, env);
      var h := Commands.Handle(cfg, s.state, r.cmd, r.data, env);
      && d.session.Some? && d.session.value.state == h.state && d.session.value.lastseqno == seqno
      && d.session.value.sid == s.sid && d.calls == h.calls && Namable(h.state)
      && Hears(d.sent, s.sid, seqno, r.cmd, Recorded(reply))
  {
    hide Commands.Handle, Serve;
    ServeDoes(cfg, s, seqno, r, env);
    HandleKeepsNamable(cfg, s.state, r.cmd, r.data, env);
  }

  /** Through a session: the client is told a handle, READDIR on it reads the stream that OPENDIR was given, and
      after CLOSEDIR it is told that the handle is bad and nothing is read. */
  lemma StreamIsServed(cfg: Config, s: Session, n: seq<U8>, dir: CString, env: seq<Env>) returns (h: U8)
    requires |n| == 4 == |env| && Namable(s.state) && AllOk(s.state.slots)
    requires n[0] != s.lastseqno && n[1] != n[0] && n[2] != n[1] && n[3] != n[2]
    requires !env[0].os.failed && env[0].os.number != 0 && exists i :: 0 <= i < 8 && !s.state.slots[i].open
    ensures var f := RunFour(cfg, s, n, dir, h, env);
      var x := env[0].os.number;
      && Hears(f.opening.sent, s.sid, n[0], 0x10, Recorded(Reply(0, [h])))
      && f.opening.calls == [CallOpenDir(DirPath(cfg, s.state, dir, env[0].inside))]
      && f.reading.calls == [CallReadDir(x)]
      && Hears(f.closing.sent, s.sid, n[2], 0x12, Recorded(Reply(0, [])))
      && Hears(f.again.sent, s.sid, n[3], 0x11, Recorded(Reply(6, []))) && f.again.calls == []
  {
    hide Serve, Commands.Handle, Hears, Namable, AllOk, DirPath;
    assert |s.state.slots| == 8 by { SlotsAreEight(s.state); }
    h := OpenDirKeepsStream(cfg, s.state, dir, env[0]);
    var x := env[0].os.number;
    var f := RunFour(cfg, s, n, dir, h, env);
    ServeReplies(cfg, s, n[0], Request(0x10, Paths.Sent(dir)), env[0], Reply(0, [h]));
    var s1 := f.opening.session.value;
    ReadDirReads(cfg, s1.state, h, x, env[1]);
    var out := Commands.Handle(cfg, s1.state, 0x11, [h], env[1]).out;
    ReadDirRecords(cfg, s1.state, h, env[1]);
    ServeReplies(cfg, s1, n[1], Request(0x11, [h]), env[1], out.reply);
    var s2 := f.reading.session.value;
    CloseDirEnds(cfg, s2.state, h, x, env[2]);
    ServeReplies(cfg, s2, n[2], Request(0x12, [h]), env[2], Reply(0, []));
    var s3 := f.closing.session.value;
    ClosedIsNotRead(cfg, s3.state, h, env[3]);
    ServeReplies(cfg, s3, n[3], Request(0x11, [h]), env[3], Reply(6, []));
  }

  lemma SlotsAreEight(st: State)
    requires AllOk(st.slots)
    ensures |st.slots| == 8
  {
  }

  lemma ReadDirRecords(cfg: Config, st: State, h: U8, env: Env)
    ensures Commands.Handle(cfg, st, 0x11, [h], env).out.Recorded?
  {
  }
}
