/** What a client gets by a MOUNT (src/session.c): the root it asked for, the session that its reply names, and
    files below that root. */
module Mounts {
  import opened CStrings
  import opened Endian
  import opened Listing
  import opened Handles
  import opened FileCommands
  import opened Auth
  import opened Commands
  import opened Protocol
  import opened Sessions
  import opened Requests
  import FileTrips
  import Paths

  /** A MOUNT request: the client's version, the path, and whatever follows, user and password for instance. */
  function Mounting(version: U16, path: CString, more: seq<U8>): seq<U8> {
    Le16(version) + (Paths.Sent(path) + more)
  }

  predicate Ended(more: seq<U8>) {
    more == [] || more[|more| - 1] == 0
  }

  lemma MountingAsks(version: U16, path: CString, more: seq<U8>, beyond: CString)
    requires Ended(more)
    ensures var data := Mounting(version, path, more);
      && data[|data| - 1] == 0 && MountRoot(data, beyond) == if path == [] then "/" else path
  {
    var data := Mounting(version, path, more);
    assert data[2..] == Paths.Sent(path) + more;
    Paths.NameInSent(path, more);
  }

  /** The reply to a MOUNT that made a session: its ID, protocol version 1.3 and a retry time of 1000 ms. */
  predicate Welcomes(sent: seq<seq<U8>>, sid: U16, seqno: U8) {
    && |sent| == 1 && |sent[0]| >= 5
    && var u := Understand(sent[0]);
       && u.sid == sid && u.seqno == seqno && u.cmd == 0 && u.status == 0 && |u.payload| == 4
       && u.payload[..2] == [3, 1] && (u.payload[2] as int) + 256 * (u.payload[3] as int) == 1000
  }

  /** A session that has this root and nothing open. */
  predicate StartsAt(c: Client, root: CString, ip: U32, fd: nat, now: int) {
    && c.ip == ip && c.fd == fd && c.contact == now && c.session.state.root == root
    && |c.session.state.slots| == 8 && Held(c.session.state.slots) == {}
    && |c.session.state.files| == 16 && HeldFiles(c.session.state.files) == {}
  }

  lemma WelcomeWelcomes(sid: U16, seqno: U8)
    ensures Welcomes([Message(sid, seqno, 0, 0, [3, 1, 0xE8, 3])], sid, seqno)
  {
    hide Message;
    ReplyIsRead(sid, seqno, 0, 0, [3, 1, 0xE8, 3]);
  }

  lemma NewStateHoldsNothing(root: CString)
    ensures var st := NewState(root);
      st.root == root && |st.slots| == 8 && Held(st.slots) == {} && |st.files| == 16 && HeldFiles(st.files) == {}
  {
  }

  /** The reply to a MOUNT that failed for the directory. */
  predicate Rejects(sent: seq<seq<U8>>, seqno: U8, status: U8) {
    |sent| == 1 && |sent[0]| >= 5 && Understand(sent[0]) == Understood(0, seqno, 0, status, [3, 1])
  }

  lemma RejectionRejects(seqno: U8, status: U8)
    ensures Rejects([Message(0, seqno, 0, status, [3, 1])], seqno, status)
  {
    hide Message;
    ReplyIsRead(0, seqno, 0, status, [3, 1]);
  }

  lemma AdmitTells(t: Slist, sid: U16, seqno: U8, root: CString, ip: U32, fd: nat, env: MountEnv)
    ensures var m := Admit(t, sid, seqno, root, ip, fd, env);
      var i := FreeIndex(t, 0);
      && m.rest == t
      && if m.table != t then
           && i < |m.table| && m.table[i].Some? && m.table == t[i := m.table[i]]
           && Welcomes(m.sent, m.table[i].value.session.sid, seqno) && StartsAt(m.table[i].value, root, ip, fd, env.now)
         else m.sent == [] || Rejects(m.sent, seqno, env.status)
  {
    hide Message, NewState, Welcomes, Rejects, Paths.RootChecked, Held, HeldFiles;
    WelcomeWelcomes(sid, seqno);
    RejectionRejects(seqno, env.status);
    NewStateHoldsNothing(root);
  }

  /** A MOUNT that makes a session tells its ID, and the session has the root asked for, "/" for none. One that
      fails for the directory tells the version and a status and belongs to no session; one that finds no room
      or no ID is not answered. */
  lemma MountTells(
    t: Slist, seqno: U8, version: U16, path: CString, more: seq<U8>, ip: U32, fd: nat, env: MountEnv)
    requires Ended(more)
    ensures var m := Mount(t, seqno, Mounting(version, path, more), ip, fd, env);
      var i := FreeIndex(m.rest, 0);
      if m.table != m.rest then
        && i < |m.table| && m.table[i].Some? && m.table == m.rest[i := m.table[i]]
        && Welcomes(m.sent, m.table[i].value.session.sid, seqno)
        && StartsAt(m.table[i].value, if path == [] then "/" else path, ip, fd, env.now)
      else m.sent == [] || Rejects(m.sent, seqno, env.status)
  {
    hide FindIp, NewSid, MountRoot, Admit, Mounting, Welcomes, Rejects, StartsAt;
    MountingAsks(version, path, more, env.beyond);
    var root: CString := if path == [] then "/" else path;
    var f := FindIp(t, ip, env.now);
    RestIsThinner(t, ip, env.now);
    var rest := if f.index < |t| then f.table[f.index := None] else f.table;
    var sid := if f.index < |t| && f.table[f.index].Some? && f.table[f.index].value.session.sid > 0
               then f.table[f.index].value.session.sid else NewSid(rest, env.draws);
    AdmitTells(rest, sid, seqno, root, ip, fd, env);
  }

  // ---------- When a mount succeeds ----------

  /** k is the first draw that no session has. */
  predicate FirstUnclaimed(t: Slist, draws: seq<U16>, k: nat) {
    k < |draws| && Unclaimed(t, draws[k]) && forall j :: 0 <= j < k ==> !Unclaimed(t, draws[j])
  }

  lemma NotFound(t: Slist, sid: U16)
    ensures FindSid(t, sid, 0) == |t| <==> Unclaimed(t, sid)
  {
    var i := FindSid(t, sid, 0);
    if i < |t| {
      assert Has(t, i, sid);
    }
  }

  lemma {:induction false} NewSidIsFirst(t: Slist, draws: seq<U16>, k: nat)
    requires FirstUnclaimed(t, draws, k)
    ensures NewSid(t, draws) == draws[k]
  {
    NotFound(t, draws[0]);
    if k > 0 {
      assert draws[1..][k - 1] == draws[k] && forall j :: 0 <= j < k - 1 ==> draws[1..][j] == draws[j + 1];
      NewSidIsFirst(t, draws[1..], k - 1);
    }
  }

  lemma {:induction false} NoNewSid(t: Slist, draws: seq<U16>)
    requires forall j :: 0 <= j < |draws| ==> !Unclaimed(t, draws[j])
    ensures NewSid(t, draws) == 0
  {
    if draws != [] {
      NotFound(t, draws[0]);
      NoNewSid(t, draws[1..]);
    }
  }

  /** The root prefix, as far as 255 characters of it, has a `..` with a slash behind. */
  predicate ShowsClimb(root: CString, sroot: CString) {
    var p := root + ['/'] + sroot + ['/'];
    exists i :: 0 <= i && i + 2 < |p| && i + 2 < 255 && p[i] == '.' && p[i + 1] == '.' && p[i + 2] == '/'
  }

  lemma ClimbIsSeen(root: CString, sroot: CString)
    ensures Paths.RootChecked(root, sroot) <==> !ShowsClimb(root, sroot)
  {
    var p := root + ['/'] + sroot + ['/'];
    var c := Paths.Cut(p, 255);
    assert |c| == (if |p| <= 255 then |p| else 255) && forall i :: 0 <= i < |c| ==> c[i] == p[i];
    if ShowsClimb(root, sroot) {
      var i :| 0 <= i && i + 2 < |p| && i + 2 < 255 && p[i] == '.' && p[i + 1] == '.' && p[i + 2] == '/';
      assert c[i] == '.' && c[i + 1] == '.' && c[i + 2] == '/';
    }
  }

  /** With fewer than sixteen live sessions of the address and room in the table, a MOUNT makes a session if and
      only if the first number drawn that no session has is not 0, the directory is there, and its path shows no
      climb; and then the session has that number. */
  lemma MountSucceeds(
    t: Slist, seqno: U8, version: U16, path: CString, more: seq<U8>, ip: U32, fd: nat, env: MountEnv, k: nat)
    requires Ended(more) && Before(t, ip, env.now, |t|) < 16
    requires exists i :: 0 <= i < |t| && t[i].None?
    requires FirstUnclaimed(FindIp(t, ip, env.now).table, env.draws, k)
    ensures var m := Mount(t, seqno, Mounting(version, path, more), ip, fd, env);
      && (m.table != m.rest <==>
            env.draws[k] != 0 && env.dirOk && !ShowsClimb(env.served, if path == [] then "/" else path))
      && (m.table != m.rest ==>
            var i := FreeIndex(m.rest, 0);
            i < |m.table| && m.table[i].Some? && m.table[i].value.session.sid == env.draws[k])
  {
    var root: CString := if path == [] then "/" else path;
    SearchFindsFullAddress(t, ip, env.now);
    MountingAsks(version, path, more, env.beyond);
    NewSidIsFirst(FindIp(t, ip, env.now).table, env.draws, k);
    ClimbIsSeen(env.served, root);
    FreeSurvives(t, ip, env.now);
    hide NewSid, FindIp, MountRoot, Mounting, NewState, Message, Paths.RootChecked, ShowsClimb, FirstUnclaimed;
  }

  /** If every number drawn belongs to a session, nothing is made and nothing is answered. */
  lemma MountNeedsId(
    t: Slist, seqno: U8, version: U16, path: CString, more: seq<U8>, ip: U32, fd: nat, env: MountEnv)
    requires Ended(more) && Before(t, ip, env.now, |t|) < 16
    requires forall j :: 0 <= j < |env.draws| ==> !Unclaimed(FindIp(t, ip, env.now).table, env.draws[j])
    ensures var m := Mount(t, seqno, Mounting(version, path, more), ip, fd, env); m.table == m.rest && m.sent == []
  {
    SearchFindsFullAddress(t, ip, env.now);
    MountingAsks(version, path, more, env.beyond);
    NoNewSid(FindIp(t, ip, env.now).table, env.draws);
    hide NewSid, FindIp, MountRoot, Mounting, NewState, Message, Paths.RootChecked, Unclaimed;
  }

  lemma FreeSurvives(t: Slist, ip: U32, now: int)
    requires exists i :: 0 <= i < |t| && t[i].None?
    ensures var u := FindIp(t, ip, now).table; |u| == |t| && FreeIndex(u, 0) < |u|
  {
    var i :| 0 <= i < |t| && t[i].None?;
    assert FindIp(t, ip, now).table[i].None?;
  }

  /** In the session so made, OPEN of an accepted name asks for a path that leads from the served root through the
      root asked for to the name, if it fits the path buffer. */
  lemma OpensBelowRoot(
    cfg: Config, c: Client, path: CString, ip: U32, fd: nat, now: int, lo: U8, hi: U8, perm: U16, name: CString,
    env: Env)
    requires StartsAt(c, path, ip, fd, now) && FilesOk(c.session.state.files, cfg.settings)
    requires !Paths.DotDot(name) && OpenAllowed(cfg.settings.readOnly, FlagsOf(lo, hi))
    requires !env.os.failed && env.os.number != 0 && env.os.virtualSize.None?
    requires |cfg.root| + |path| + |name| <= 381
    ensures var calls := Commands.Handle(cfg, c.session.state, 0x29, [lo, hi] + Le16(perm)
        + Paths.Sent(name), env).calls;
      && |calls| == 1 && calls[0].CallOpen? && calls[0].mode == MakeMode(FlagsOf(lo, hi)) && calls[0].perm == perm
      && Paths.Place(calls[0].path) == Paths.Resolve(
           Paths.Resolve(Paths.Place(cfg.root), Paths.Components(path)), Paths.Components(name))
  {
    hide Commands.Handle, Paths.Place, Paths.Resolve, Paths.Components, Paths.FullPath, Paths.DotDot, FlagsOf, MakeMode,
         OpenAllowed, Le16;
    var st := c.session.state;
    AllFree(st.files);
    assert st.files[0].fd == 0;
    var _ := FileTrips.OpenGetsFile(cfg, st, lo, hi, perm, name, env);
    Paths.PathLeads(cfg.root, path, name);
  }

  /** A directory path that fits its buffer and stays inside leads there too; one that does not stay inside is
      the served root. */
  lemma DirPathLeads(cfg: Config, st: State, name: CString)
    ensures DirPath(cfg, st, name, false) == cfg.root
    ensures |cfg.root| + |st.root| + |name| <= 253 ==>
      Paths.Place(DirPath(cfg, st, name, true)) == Paths.Resolve(
        Paths.Resolve(Paths.Place(cfg.root), Paths.Components(st.root)), Paths.Components(name))
  {
    hide Paths.Place, Paths.Resolve, Paths.Components, Paths.Collapsed;
    if |cfg.root| + |st.root| + |name| <= 253 {
      var whole := Paths.RootPrefix(cfg.root, st.root) + name;
      assert Paths.Cut(whole, 255) == whole && whole == cfg.root + ['/'] + st.root + ['/'] + name;
      Paths.NormalizingKeepsPlace(whole);
      Paths.PlaceBelow(cfg.root + ['/'] + st.root, name);
      Paths.PlaceBelow(cfg.root, st.root);
    }
  }

  lemma AllFree(files: seq<FileSlot>)
    requires HeldFiles(files) == {}
    ensures forall i :: 0 <= i < |files| ==> files[i].fd == 0
  {
    assert forall i :: 0 <= i < |files| && files[i].fd != 0 ==> files[i].fd in HeldFiles(files);
  }
}
