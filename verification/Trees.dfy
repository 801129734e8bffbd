/** What MKDIR, RMDIR, UNLINK and RENAME do to a file system (src/directory.c, src/tnfs_file.c), and that the
    read-only gate refuses just what could change one. */
module Trees {
  import opened CStrings
  import opened Endian
  import opened Listing
  import opened Handles
  import opened Paging
  import opened FileCommands
  import opened Auth
  import opened DirCommands
  import opened Commands
  import opened Sessions
  import Paths

  // ---------- A file system ----------

  datatype Item = Dir | File

  type Tree = map<CString, Item>

  /** What a call makes of a file system; one that cannot succeed leaves it alone. */
  function After(t: Tree, c: OsCall): Tree {
    match c
    case CallMkdir(p) => if p in t then t else t[p := Dir]
    case CallRmdir(p) => if p in t && t[p] == Dir then t - {p} else t
    case CallUnlink(p) => if p in t && t[p] == File then t - {p} else t
    case CallRename(p, q) => if p in t && p != q then (t - {p})[q := t[p]] else t
    case _ => t
  }

  function AfterAll(t: Tree, cs: seq<OsCall>): Tree
    decreases |cs|
  {
    if cs == [] then t else AfterAll(After(t, cs[0]), cs[1..])
  }

  /** What a request makes of it. */
  ghost function Done(cfg: Config, st: State, cmd: U8, data: seq<U8>, env: Env, t: Tree): Tree {
    AfterAll(t, Commands.Handle(cfg, st, cmd, data, env).calls)
  }

  /** The path of a name in a session. */
  function At(cfg: Config, st: State, name: CString): CString {
    Paths.FullPath(cfg.root, st.root, name)
  }

  lemma SentIsName(name: CString, more: seq<U8>)
    requires more == [] || more[|more| - 1] == 0
    ensures Paths.NameIn(Paths.Sent(name) + more) == name
    ensures Paths.ValidName(Paths.Sent(name) + more) <==> !Paths.DotDot(name)
    ensures Paths.Sent(name) + [] == Paths.Sent(name)
  {
    Paths.NameInSent(name, more);
  }

  lemma OneCall(t: Tree, c: OsCall)
    ensures AfterAll(t, [c]) == After(t, c)
  {
  }

  // ---------- The four commands ----------

  /** MKDIR makes the directory of the name, and RMDIR takes it away again. */
  lemma MadeIsRemoved(cfg: Config, st: State, name: CString, env: Env, env': Env, t: Tree)
    requires !Paths.DotDot(name) && At(cfg, st, name) !in t
    ensures var made := Done(cfg, st, 0x13, Paths.Sent(name), env, t);
      && made == t[At(cfg, st, name) := Dir]
      && Done(cfg, st, 0x14, Paths.Sent(name), env', made) == t
  {
    hide Paths.FullPath, Paths.NameIn, Paths.ValidName, Paths.DotDot;
    SentIsName(name, []);
    var p := At(cfg, st, name);
    OneCall(t, CallMkdir(p));
    OneCall(t[p := Dir], CallRmdir(p));
    assert t[p := Dir] - {p} == t;
  }

  /** UNLINK takes a file away, and no directory; RMDIR no file. */
  lemma FilesAreUnlinked(cfg: Config, st: State, name: CString, env: Env, t: Tree)
    requires !Paths.DotDot(name) && At(cfg, st, name) in t
    ensures var p := At(cfg, st, name);
      && Done(cfg, st, 0x26, Paths.Sent(name), env, t) == (if t[p] == File then t - {p} else t)
      && Done(cfg, st, 0x14, Paths.Sent(name), env, t) == (if t[p] == File then t else t - {p})
  {
    hide Paths.FullPath, Paths.NameIn, Paths.ValidName, Paths.DotDot;
    SentIsName(name, []);
    var p := At(cfg, st, name);
    OneCall(t, CallUnlink(p));
    OneCall(t, CallRmdir(p));
  }

  /** RENAME moves what the first name has to the second, and back when the names are exchanged. */
  lemma RenamedIsMoved(cfg: Config, st: State, from: CString, to: CString, env: Env, env': Env, t: Tree)
    requires !Paths.DotDot(from) && !Paths.DotDot(to)
    requires At(cfg, st, from) in t && At(cfg, st, to) !in t
    ensures var p, q := At(cfg, st, from), At(cfg, st, to);
      var moved := Done(cfg, st, 0x28, Paths.Sent(from) + Paths.Sent(to), env, t);
      && p !in moved && q in moved && moved[q] == t[p] && moved - {q} == t - {p}
      && Done(cfg, st, 0x28, Paths.Sent(to) + Paths.Sent(from), env', moved) == t
  {
    hide Commands.Handle, Paths.FullPath;
    var p, q := At(cfg, st, from), At(cfg, st, to);
    RenameCalls(cfg, st, from, to, env);
    RenameCalls(cfg, st, to, from, env');
    OneCall(t, CallRename(p, q));
    var moved := (t - {p})[q := t[p]];
    OneCall(moved, CallRename(q, p));
    assert moved - {q} == t - {p};
    assert (moved - {q})[p := moved[q]] == t;
  }

  lemma RenameBytes(from: CString, to: CString)
    requires !Paths.DotDot(from) && !Paths.DotDot(to)
    ensures var data := Paths.Sent(from) + Paths.Sent(to);
      && Paths.NameIn(data) == from && |from| + 1 < |data| && Terminated(data) && Paths.ValidName(data)
      && Paths.NameIn(data[|from| + 1..]) == to && Paths.ValidName(data[|from| + 1..])
  {
    hide Paths.NameIn, Paths.ValidName, Paths.DotDot;
    SentIsName(from, Paths.Sent(to));
    SentIsName(to, []);
    assert (Paths.Sent(from) + Paths.Sent(to))[|from| + 1..] == Paths.Sent(to);
  }

  lemma RenameCalls(cfg: Config, st: State, from: CString, to: CString, env: Env)
    requires !Paths.DotDot(from) && !Paths.DotDot(to)
    ensures Commands.Handle(cfg, st, 0x28, Paths.Sent(from) + Paths.Sent(to), env).calls
            == [CallRename(At(cfg, st, from), At(cfg, st, to))]
  {
    hide Paths.FullPath, Paths.NameIn, Paths.ValidName, Paths.DotDot, Paths.Sent, Terminated;
    var data := Paths.Sent(from) + Paths.Sent(to);
    RenameBytes(from, to);
    assert Commands.Handle(cfg, st, 0x28, data, env) == DoRename(cfg, st, data, env);
    hide Commands.Handle;
  }

  /** STAT asks for the path that these commands work on. */
  lemma StatAsks(cfg: Config, st: State, name: CString, env: Env)
    requires !Paths.DotDot(name) && name != []
    ensures Commands.Handle(cfg, st, 0x24, Paths.Sent(name), env).calls == [CallStat(At(cfg, st, name))]
  {
    hide Paths.FullPath, Paths.NameIn, Paths.ValidName, Paths.DotDot;
    SentIsName(name, []);
  }

  // ---------- The gate ----------

  /** Every command that read-only mode refuses, but CHMOD, which does nothing, has a request that asks for a
      change. With ReadOnlyCallsOnlyRead: nothing else is refused. */
  lemma RefusedCouldChange(cfg: Config, cmd: U8, env: Env) returns (st: State, data: seq<U8>)
    requires !CmdAllowed(true, cmd) && cmd != 0x27
    ensures exists c :: c in Commands.Handle(cfg, st, cmd, data, env).calls && Changes(c)
  {
    hide Paths.FullPath, Paths.NameIn, Paths.ValidName;
    st := NewState("/").(files := [FileSlot(1, NO_META)]);
    var name: CString := "a";
    SentIsName(name, []);
    assert !Paths.DotDot(name);
    data := if cmd == 0x28 then Paths.Sent(name) + Paths.Sent(name) else if cmd == 0x22 then [0, 1, 0, 7]
        else Paths.Sent(name);
    if cmd == 0x28 {
      RenameCalls(cfg, st, name, name, env);
    }
    var calls := Commands.Handle(cfg, st, cmd, data, env).calls;
    assert calls != [] && Changes(calls[0]);
  }
}
