/** The session table as src/session.c keeps it: an array of session objects searched, allocated, swept and
    freed in place, each operation proved to do what Sessions and Server say on values. */
module SessionTable {
  import opened CStrings
  import opened Endian
  import opened Listing
  import opened Handles
  import opened DirCommands
  import opened FileCommands
  import opened Commands
  import opened Protocol
  import opened Ownership
  import opened Sessions
  import Os
  import Paths
  import Server

  class ClientSession {
    var sid: U16
    var ip: U32
    var lastContact: int
    var cliFd: nat
    var state: State
    var lastmsg: seq<U8>
    var lastseqno: U8

    /** A session as tnfs_allocsession leaves it. */
    constructor (sid: U16)
      ensures View() == Client(Session(sid, NewState([]), [], 0), 0, 0, 0)
    {
      this.sid, ip, lastContact, cliFd, state, lastmsg, lastseqno := sid, 0, 0, 0, NewState([]), [], 0;
    }

    ghost function View(): Client
      reads this
    {
      Client(Session(sid, state, lastmsg, lastseqno), ip, lastContact, cliFd)
    }
  }

  /** What every session's slots satisfy between requests, as far as freeing them needs it. */
  predicate Orderly(s: State) {
    && |s.slots| == MAX_HANDLES && |s.files| == MAX_FDS
    && Owns(s.slots, Held(s.slots)) && OwnsFiles(s.files, HeldFiles(s.files))
  }

  predicate AllOrderly(t: Slist) {
    forall i :: 0 <= i < |t| && t[i].Some? ==> Orderly(t[i].value.session.state)
  }

  /** Everything open is held by exactly one session of the table. */
  ghost predicate Shared(t: Slist, dirs: set<nat>, files: set<nat>) {
    AllOrderly(t) && Exact(Server.StreamSets(t), dirs) && Exact(Server.DescriptorSets(t), files)
  }

  lemma SharesOf(t: Slist, dirs: set<nat>, files: set<nat>, i: nat)
    requires Shared(t, dirs, files) && i < |t| && t[i].Some?
    ensures Owns(t[i].value.session.state.slots, dirs) && OwnsFiles(t[i].value.session.state.files, files)
  {
    PartIsOpen(Server.StreamSets(t), dirs, i);
    PartIsOpen(Server.DescriptorSets(t), files, i);
  }

  lemma SharesAfterFreeing(t: Slist, dirs: set<nat>, files: set<nat>, i: nat)
    requires Shared(t, dirs, files) && i < |t| && t[i].Some?
    ensures Shared(t[i := None], dirs - Held(t[i].value.session.state.slots),
        files - HeldFiles(t[i].value.session.state.files))
  {
    hide Held, HeldFiles, Exact, Owns, OwnsFiles;
    var st := t[i].value.session.state;
    assert (dirs - Held(st.slots)) + {} == dirs - Held(st.slots) &&
        (files - HeldFiles(st.files)) + {} == files - HeldFiles(st.files);
    ReplacePart(Server.StreamSets(t), dirs, i, {});
    ReplacePart(Server.DescriptorSets(t), files, i, {});
    assert Server.StreamSets(t[i := None]) == Server.StreamSets(t)[i := {}];
    assert Server.DescriptorSets(t[i := None]) == Server.DescriptorSets(t)[i := {}];
  }

  /** The shares determine what is open, so freeing sessions one by one ends where Freeing says. */
  lemma SharesMeanFreeing(w: Server.World, rest: Slist, dirs: set<nat>, files: set<nat>)
    requires Shared(w.clients, w.dirs, w.files) && Shared(rest, dirs, files)
    requires |rest| == |w.clients| && forall i :: 0 <= i < |rest| ==> rest[i] == w.clients[i] || rest[i].None?
    ensures Server.Freeing(w, rest) == Server.World(rest, w.conns, dirs, files)
  {
    hide Held, HeldFiles, Owns, OwnsFiles, Union, Lost;
    ShrinkParts(Server.StreamSets(w.clients), w.dirs, Server.StreamSets(rest));
    ShrinkParts(Server.DescriptorSets(w.clients), w.files, Server.DescriptorSets(rest));
    assert dirs == w.dirs - Lost(Server.StreamSets(w.clients), Server.StreamSets(rest));
    assert files == w.files - Lost(Server.DescriptorSets(w.clients), Server.DescriptorSets(rest));
  }

  class Table {
    const slist: array<ClientSession?>

    ghost predicate Valid()
      reads slist
    {
      && slist.Length == MAX_SESSIONS
      && forall i, j :: 0 <= i < j < slist.Length && slist[i] != null ==> slist[i] != slist[j]
    }

    ghost function View(): (t: Slist)
      reads slist, slist[..]
      ensures |t| == slist.Length
      ensures forall i :: 0 <= i < slist.Length ==> t[i] == if slist[i] == null then None else Some(slist[i].View())
    {
      seq(slist.Length, i requires 0 <= i < slist.Length reads slist, slist[..] =>
            if slist[i] == null then None else Some(slist[i].View()))
    }

    constructor ()
      ensures Valid() && fresh(slist) && View() == seq(MAX_SESSIONS, _ => None)
    {
      slist := new ClientSession?[MAX_SESSIONS](_ => null);
    }

    /** tnfs_findsession_sid; the size of the table when there is none. */
    method FindSession(sid: U16) returns (i: nat)
      requires Valid()
      ensures i == FindSid(View(), sid, 0)
    {
      i := 0;
      while i < slist.Length && (slist[i] == null || slist[i].sid != sid)
        invariant i <= slist.Length && FindSid(View(), sid, i) == FindSid(View(), sid, 0)
      {
        i := i + 1;
      }
    }

    /** tnfs_newsid. */
    method DrawSid(draws: seq<U16>) returns (sid: U16)
      requires Valid()
      ensures sid == NewSid(View(), draws)
    {
      var tries := 0;
      while tries < |draws|
        invariant tries <= |draws| && NewSid(View(), draws[tries..]) == NewSid(View(), draws)
      {
        var i := FindSession(draws[tries]);
        if i == slist.Length {
          return draws[tries];
        }
        tries := tries + 1;
      }
      sid := 0;
    }

    /** tnfs_reset_cli_fd_in_sessions. */
    method ResetCliFd(fd: nat)
      requires Valid()
      modifies slist[..]
      ensures Valid() && View() == Unbound(old(View()), {fd})
    {
      for i := 0 to slist.Length
        invariant Valid()
        invariant forall j :: 0 <= j < i ==> View()[j] == Unbound(old(View()), {fd})[j]
        invariant forall j :: i <= j < slist.Length ==> View()[j] == old(View())[j]
      {
        if slist[i] != null && slist[i].cliFd == fd {
          slist[i].cliFd := 0;
        }
      }
    }

    /** tnfs_freesession. */
    method FreeSession(i: nat, os: Os.System)
      requires Valid() && i < slist.Length && slist[i] != null && Shared(View(), os.dirs, os.files)
      modifies slist, os
      ensures Valid() && slist[i] == null && View() == old(View())[i := None] && Shared(View(), os.dirs, os.files)
      ensures forall j :: 0 <= j < slist.Length && j != i ==> slist[j] == old(slist[j])
    {
      hide Exact, Held, HeldFiles;
      ghost var t, dirs, files := View(), os.dirs, os.files;
      SharesOf(t, dirs, files, i);
      SharesAfterFreeing(t, dirs, files, i);
      var s := slist[i];
      CloseAll(s.state, os);
      slist[i] := null;
      assert View() == t[i := None];
    }

    /** tnfs_expire_sessions. */
    method ExpireSessions(now: int, os: Os.System)
      requires Valid() && Shared(View(), os.dirs, os.files)
      modifies slist, os
      ensures Valid() && View() == WithoutExpired(old(View()), now, |old(View())|) && Shared(View(), os.dirs, os.files)
    {
      hide Shared;
      for i := 0 to slist.Length
        invariant Valid() && Shared(View(), os.dirs, os.files)
        invariant forall j :: 0 <= j < slist.Length ==> View()[j] == WithoutExpired(old(View()), now, i)[j]
      {
        if slist[i] != null {
          var expired := SessionExpired(slist[i], now);
          if expired {
            FreeSession(i, os);
          }
        }
      }
    }

    /** tnfs_session_expired. */
    method SessionExpired(s: ClientSession, now: int) returns (expired: bool)
      ensures expired <==> Expired(s.View(), now)
    {
      expired := SESSION_TIMEOUT > 0 && now - s.lastContact >= SESSION_TIMEOUT && s.cliFd == 0;
    }

    /** tnfs_findsession_ipaddr: expired sessions go as the search meets them; it stops at the sixteenth live
        session of the address and then answers with the first. */
    method FindSessionByIp(ip: U32, now: int, os: Os.System) returns (index: nat)
      requires Valid() && Shared(View(), os.dirs, os.files)
      modifies slist, os
      ensures Valid() && Lookup(View(), index) == FindIp(old(View()), ip, now) && Shared(View(), os.dirs, os.files)
    {
      hide Shared;
      ghost var t := View();
      var count, first := 0, slist.Length;
      for i := 0 to slist.Length
        invariant Valid() && Shared(View(), os.dirs, os.files)
        invariant forall j :: 0 <= j < slist.Length ==> View()[j] == WithoutExpired(t, now, i)[j]
        invariant count == Before(t, ip, now, i) < MAX_PER_IP && Sixteenth(t, ip, now, i) == Sixteenth(t, ip, now, 0)
        invariant if count == 0 then FirstCounting(t, ip, now, i) == FirstCounting(t, ip, now, 0) &&
            first == slist.Length
                  else first == FirstCounting(t, ip, now, 0) < i
      {
        assert View()[i] == t[i];
        if slist[i] != null {
          var expired := SessionExpired(slist[i], now);
          if expired {
            FreeSession(i, os);
          } else if slist[i].ip == ip {
            if count + 1 >= MAX_PER_IP && first < slist.Length {
              assert View() == WithoutExpired(t, now, i);
              return first;
            }
            if count == 0 {
              first := i;
            }
            count := count + 1;
          }
        }
      }
      assert View() == WithoutExpired(t, now, slist.Length);
      index := slist.Length;
    }

    /** tnfs_allocsession: null when the table is full or no ID could be found. */
    method AllocSession(withSid: U16, draws: seq<U16>) returns (s: ClientSession?, i: nat)
      requires Valid()
      modifies slist
      ensures Valid()
      ensures var t := old(View()); var sid := if withSid > 0 then withSid else NewSid(t, draws);
        if FreeIndex(t, 0) == |t| || sid == 0 then s == null && View() == t
        else s != null && fresh(s) && i == FreeIndex(t, 0) && slist[i] == s && View() == t[i := Some(s.View())]
             && s.View() == Client(Session(sid, NewState([]), [], 0), 0, 0, 0)
    {
      i := 0;
      while i < slist.Length && slist[i] != null
        invariant i <= slist.Length && FreeIndex(View(), i) == FreeIndex(View(), 0)
      {
        i := i + 1;
      }
      if i == slist.Length {
        return null, i;
      }
      var sid := withSid;
      if sid == 0 {
        sid := DrawSid(draws);
        if sid == 0 {
          return null, i;
        }
      }
      s := new ClientSession(sid);
      slist[i] := s;
      assert View() == old(View())[i := Some(s.View())];
    }

    /** tnfs_mount from the allocation on. */
    method SetUp(withSid: U16, seqno: U8, root: CString, ip: U32, fd: nat, env: MountEnv, os: Os.System)
        returns (sent: seq<seq<U8>>)
      requires Valid() && Shared(View(), os.dirs, os.files)
      modifies slist, os
      ensures Valid() && Shared(View(), os.dirs, os.files)
      ensures var sid := if withSid > 0 then withSid else NewSid(old(View()), env.draws);
        var m := Admit(old(View()), sid, seqno, root, ip, fd, env);
        View() == m.table && sent == m.sent
    {
      hide Shared, NewSid, FreeIndex, NewState, Message;
      ghost var t := View();
      var s, i := AllocSession(withSid, env.draws);
      if s == null {
        return [];
      }
      s.state := NewState(root);
      s.lastContact, s.ip, s.cliFd := env.now, ip, fd;
      var ok := env.dirOk && Paths.RootChecked(env.served, root);
      if ok {
        s.lastmsg, s.lastseqno := Message(s.sid, seqno, 0, 0, [3, 1, 0xE8, 3]), seqno;
        sent := [s.lastmsg];
      } else {
        sent := [Message(0, seqno, 0, env.status, [3, 1])];
      }
      assert View() == t[i := Some(s.View())];
      JoinShares(t, os.dirs, os.files, i, s.View(), root);
      if !ok {
        FreeSession(i, os);
        assert View() == t;
      }
    }

    /** tnfs_mount. */
    method DoMount(seqno: U8, data: seq<U8>, ip: U32, fd: nat, env: MountEnv, os: Os.System)
        returns (sent: seq<seq<U8>>)
      requires Valid() && Shared(View(), os.dirs, os.files) && Distinct(View())
      modifies slist, os
      ensures Valid() && Shared(View(), os.dirs, os.files)
      ensures var m := Mount(old(View()), seqno, data, ip, fd, env); View() == m.table && sent == m.sent
    {
      hide Shared, FindIp, NewSid, MountRoot, Admit, Distinct;
      if data != [] && data[|data| - 1] != 0 {
        return [];
      }
      MountSidIsFree(View(), ip, env.now, env.draws);
      var recycledSid := 0;
      var first := FindSessionByIp(ip, env.now, os);
      if first < slist.Length {
        recycledSid := slist[first].sid;
        FreeSession(first, os);
      }
      sent := SetUp(recycledSid, seqno, MountRoot(data, env.beyond), ip, fd, env, os);
    }

    /** The end of tnfs_umount. */
    method Umount(i: nat, os: Os.System)
      requires Valid() && i < slist.Length && slist[i] != null && Shared(View(), os.dirs, os.files)
      modifies slist, os
      ensures Valid() && View() == old(View())[i := None] && Shared(View(), os.dirs, os.files)
      ensures Server.World(View(), [], os.dirs, os.files)
              == Server.Freeing(Server.World(old(View()), [], old(os.dirs), old(os.files)), old(View())[i := None])
    {
      hide Shared, Server.Freeing;
      ghost var w := Server.World(View(), [], os.dirs, os.files);
      FreeSession(i, os);
      SharesMeanFreeing(w, View(), os.dirs, os.files);
    }

    /** tnfs_free_all_sessions. */
    method FreeAllSessions(os: Os.System)
      requires Valid() && Shared(View(), os.dirs, os.files)
      modifies slist, os
      ensures Valid() && View() == seq(MAX_SESSIONS, _ => None) && os.dirs == {} && os.files == {}
    {
      hide Exact;
      for i := 0 to slist.Length
        invariant Valid() && Shared(View(), os.dirs, os.files)
        invariant forall j :: 0 <= j < i ==> slist[j] == null
      {
        if slist[i] != null {
          FreeSession(i, os);
        }
      }
      EmptyTable(View(), os.dirs, os.files);
      assert View() == seq(MAX_SESSIONS, _ => None);
    }
  }

  lemma EmptyTable(t: Slist, dirs: set<nat>, files: set<nat>)
    requires Shared(t, dirs, files) && forall i :: 0 <= i < |t| ==> t[i].None?
    ensures dirs == {} && files == {}
  {
  }

  /** A new session joins the table holding nothing. */
  lemma JoinShares(t: Slist, dirs: set<nat>, files: set<nat>, i: nat, c: Client, root: CString)
    requires Shared(t, dirs, files) && i < |t| && t[i].None? && c.session.state == NewState(root)
    ensures Shared(t[i := Some(c)], dirs, files)
  {
    hide Exact;
    NewStateHoldsNothing(root);
    assert Server.StreamSets(t[i := Some(c)]) == Server.StreamSets(t);
    assert Server.DescriptorSets(t[i := Some(c)]) == Server.DescriptorSets(t);
  }

  lemma NewStateHoldsNothing(root: CString)
    ensures Orderly(NewState(root)) && Held(NewState(root).slots) == {} && HeldFiles(NewState(root).files) == {}
  {
  }

  /** The loops of tnfs_freesession over the descriptors and the directory handles. */
  method CloseAll(s: State, os: Os.System)
    requires Orderly(s) && Owns(s.slots, os.dirs) && OwnsFiles(s.files, os.files)
    modifies os
    ensures os.dirs == old(os.dirs) - Held(s.slots) && os.files == old(os.files) - HeldFiles(s.files)
  {
    for i := 0 to MAX_FDS
      invariant os.dirs == old(os.dirs)
      invariant os.files == old(os.files) - (set k | 0 <= k < i && s.files[k].fd != 0 :: s.files[k].fd)
    {
      if s.files[i].fd != 0 {
        assert s.files[i].fd in HeldFiles(s.files);
        os.CloseFile(s.files[i].fd);
      }
    }
    for i := 0 to MAX_HANDLES
      invariant os.files == old(os.files) - HeldFiles(s.files)
      invariant os.dirs == old(os.dirs) - (set k | 0 <= k < i && s.slots[k].stream != 0 :: s.slots[k].stream)
    {
      if s.slots[i].stream != 0 {
        assert s.slots[i].stream in Held(s.slots);
        os.CloseDir(s.slots[i].stream);
      }
    }
  }
}
