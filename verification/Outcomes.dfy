/** What a client is told when a request cannot be served (src/directory.c, src/tnfs_file.c, src/datagram.c): a
    malformed request, a bad handle, no room, or an error of the operating system. */
module Outcomes {
  import opened CStrings
  import opened Endian
  import opened Listing
  import opened DirHandle
  import opened Handles
  import opened Paging
  import opened FileCommands
  import opened Auth
  import opened DirCommands
  import opened Commands
  import Paths

  // ---------- Malformed requests ----------

  /** A text that ends in NUL. */
  predicate Closed(data: seq<U8>) {
    data != [] && data[|data| - 1] == 0
  }

  /** A text that ends in NUL and has no two dots in a row before its first NUL. */
  predicate GoodName(data: seq<U8>) {
    Closed(data) && !TwoDots(Paths.NameIn(data))
  }

  predicate TwoDots(s: CString) {
    exists i :: 0 <= i < |s| - 1 && s[i] == '.' && s[i + 1] == '.'
  }

  /** A name is accepted if and only if it ends in NUL and has no two dots in a row. */
  lemma GoodNamesAreAccepted(data: seq<U8>)
    ensures Paths.ValidName(data) <==> GoodName(data)
  {
  }

  /** The requests with a text that is not accepted. */
  predicate Malformed(cmd: U8, data: seq<U8>) {
    match cmd
    case 0x10 => !Closed(data)
    case 0x17 => |data| < 7 || !Closed(data)
    case 0x13 => !GoodName(data)
    case 0x14 => !GoodName(data)
    case 0x26 => !GoodName(data)
    case 0x24 => |data| < 2 || !GoodName(data)
    case 0x28 =>
      var n := |Paths.NameIn(data)| + 1;
      n >= |data| || !GoodName(data) || !GoodName(data[n..])
    case 0x29 => |data| < 5 || !GoodName(data[4..])
    case 0x20 => |data| < 3 || !GoodName(data[2..])
    case _ => false
  }

  /** They are answered with EINVAL, and nothing is done. */
  lemma MalformedIsRefused(cfg: Config, st: State, cmd: U8, data: seq<U8>, env: Env)
    requires Malformed(cmd, data)
    ensures Commands.Handle(cfg, st, cmd, data, env) == Done(st, Recorded(Reply(0x0E, [])), [])
  {
    GoodNamesAreAccepted(data);
    if cmd == 0x20 && |data| >= 3 {
      assert Modern(data)[4..] == data[2..];
      GoodNamesAreAccepted(data[2..]);
    }
    if cmd == 0x29 && |data| >= 5 {
      GoodNamesAreAccepted(data[4..]);
    }
    if cmd == 0x28 && |Paths.NameIn(data)| + 1 < |data| {
      GoodNamesAreAccepted(data[|Paths.NameIn(data)| + 1..]);
    }
    hide Paths.NameIn, Paths.ValidName, TwoDots, Choose, OpenFile;
  }

  /** A command that does not exist is told so. */
  lemma UnknownIsRefused(cfg: Config, st: State, cmd: U8, data: seq<U8>, env: Env)
    requires !(cmd == 0x01 || 0x10 <= cmd <= 0x18 || 0x20 <= cmd <= 0x29 || 0x30 <= cmd <= 0x33)
    ensures Commands.Handle(cfg, st, cmd, data, env) == Done(st, Recorded(Reply(0x16, [])), [])
  {
  }

  // ---------- Bad handles and full tables ----------

  /** How long a request on a directory handle is. */
  function HandleSize(cmd: U8): nat {
    match cmd case 0x16 => 5 case 0x18 => 2 case _ => 1
  }

  /** A directory handle that is out of range or, but for READDIRX, not open: EBADF, and nothing is done. */
  lemma BadHandleIsRefused(cfg: Config, st: State, cmd: U8, data: seq<U8>, env: Env)
    requires |st.slots| == 8 && cmd in {0x11, 0x12, 0x15, 0x16, 0x18}
    requires |data| != HandleSize(cmd) || data[0] >= 8 || (cmd != 0x18 && !st.slots[data[0]].open)
    ensures Commands.Handle(cfg, st, cmd, data, env) == Done(st, Recorded(Reply(0x06, [])), [])
  {
    if |data| == HandleSize(cmd) && data[0] < 8 {
      assert HandleOf(st, data, HandleSize(cmd)) == Some(data[0] as nat);
    }
  }

  /** How long a request on a file descriptor is at least. */
  function FdSize(cmd: U8): nat {
    match cmd case 0x21 => 3 case 0x22 => 4 case 0x25 => 6 case _ => 1
  }

  /** A file descriptor that is out of range or not open, or a request too short: EBADFD, and nothing is done. */
  lemma BadFdIsRefused(cfg: Config, st: State, cmd: U8, data: seq<U8>, env: Env)
    requires |st.files| == 16 && cmd in {0x21, 0x22, 0x23, 0x25}
    requires |data| < FdSize(cmd) || data[0] >= 16 || st.files[data[0]].fd == 0
    ensures Commands.Handle(cfg, st, cmd, data, env) == Done(st, Recorded(Reply(0x1C, [])), [])
  {
    assert SlotOf(st.files, data, FdSize(cmd)) == None;
  }

  /** With all eight handles or all sixteen descriptors taken an opening is told so and asks for nothing. */
  lemma FullTablesRefuse(cfg: Config, st: State, data: seq<U8>, env: Env)
    ensures (forall i :: 0 <= i < |st.slots| ==> st.slots[i].open) && Closed(data) ==>
      var d := Commands.Handle(cfg, st, 0x10, data, env); d.out == Recorded(Reply(0x10, [])) && d.calls == []
    ensures (&& (forall i :: 0 <= i < |st.files| ==> st.files[i].fd != 0) && |data| >= 5 && GoodName(data[4..])
             && OpenAllowed(cfg.settings.readOnly, FlagsOf(data[0], data[1]))) ==>
      var d := Commands.Handle(cfg, st, 0x29, data, env); d == Done(st, Recorded(Reply(0x10, [])), [])
  {
    if |data| >= 5 {
      GoodNamesAreAccepted(data[4..]);
    }
    hide DirPath, Paths.NameIn, Paths.ValidName, TwoDots, FlagsOf, OpenAllowed, MakeMode;
    if (forall i :: 0 <= i < |st.slots| ==> st.slots[i].open) && Closed(data) {
      NoneOnlyWhenAllOpen(st.slots, Key(DirPath(cfg, st, Paths.NameIn(data), env.inside), 0, 0, None), false, env.now);
      ChoiceInRange(st.slots, Key(DirPath(cfg, st, Paths.NameIn(data), env.inside), 0, 0, None), false, env.now);
    }
  }

  // ---------- What the operating system says ----------

  /** A status of the operating system's, or success. */
  function Status(env: Env): U8 {
    if env.os.failed then env.os.status else 0
  }

  /** A failing call is told with the status of the operating system's, whichever command made it; only READDIR
      calls it the end of the directory. */
  lemma ErrorsAreTold(cfg: Config, st: State, cmd: U8, data: seq<U8>, env: Env)
    requires env.os.failed && cmd !in {0x15, 0x16, 0x17} && |st.files| == 16
    requires cmd == 0x21 && |data| > 0 && data[0] < 16 ==> !st.files[data[0]].meta.binary
    ensures var d := Commands.Handle(cfg, st, cmd, data, env);
      d.calls != [] ==> d.out == Recorded(Reply(if cmd == 0x11 then 0x21 else env.os.status, []))
  {
    hide Choose, DirPath, Paths.NameIn, Paths.ValidName, Paths.FullPath, Paths.RootPrefix, OpenAllowed, MakeMode,
        FlagsOf, Modern,
         FirstFree, AfterRead, ReadReply, CloseDir, Seekable, ReadSize, WriteSize, Signed32, Whence, Low32;
    ChoiceInRange(st.slots, Key(DirPath(cfg, st, Paths.NameIn(data), env.inside), 0, 0, None), false, env.now);
  }

  /** So is a listing that fails. */
  lemma FailedListingIsTold(cfg: Config, st: State, data: seq<U8>, env: Env)
    requires env.enumeration.Failed?
    ensures var d := Commands.Handle(cfg, st, 0x17, data, env);
      d.calls != [] ==> d.out == Recorded(Reply(env.enumeration.status, [])) && d.state.builds == st.builds
  {
    hide Choose, DirPath, Paths.NameIn, OpenDirXKey, DirOptsOf;
    var d := Commands.Handle(cfg, st, 0x17, data, env);
    assert d.state.builds == st.builds + [] || d.state.builds == st.builds;
  }

  /** MKDIR, RMDIR, UNLINK and RENAME tell what their one call came to. */
  lemma NamesAreAnswered(cfg: Config, st: State, cmd: U8, data: seq<U8>, env: Env)
    requires cmd in {0x13, 0x14, 0x26, 0x28} && !Malformed(cmd, data)
    ensures var d := Commands.Handle(cfg, st, cmd, data, env);
      d.state == st && |d.calls| == 1 && d.out == Recorded(Reply(Status(env), []))
  {
    GoodNamesAreAccepted(data);
    if cmd == 0x28 {
      GoodNamesAreAccepted(data[|Paths.NameIn(data)| + 1..]);
    }
    hide Paths.NameIn, Paths.ValidName, TwoDots, Paths.FullPath;
  }

  /** STAT answers with the 22 bytes, the sizes with the 4 or 8 that were reported. */
  lemma ReportsAreAnswered(cfg: Config, st: State, cmd: U8, data: seq<U8>, env: Env, size: nat)
    requires cmd in {0x24, 0x30, 0x31, 0x32, 0x33} && !Malformed(cmd, data)
    requires size == (match cmd case 0x24 => 22 case 0x30 => 4 case 0x31 => 4 case _ => 8) && |env.os.bytes| == size
    ensures var d := Commands.Handle(cfg, st, cmd, data, env);
      && d.state == st && |d.calls| == 1 && (d.calls[0].CallStat? <==> cmd == 0x24)
      && d.out == Recorded(Reply(Status(env), if env.os.failed then [] else env.os.bytes))
  {
    GoodNamesAreAccepted(data);
    hide Paths.NameIn, Paths.ValidName, TwoDots, Paths.FullPath, Paths.RootPrefix;
    assert Sized(env.os.bytes, size) == env.os.bytes;
  }

  /** The sizes are those of the file system that the session's root is in. */
  lemma SizesAskForRoot(cfg: Config, st: State, cmd: U8, data: seq<U8>, env: Env)
    requires 0x30 <= cmd <= 0x33 && |cfg.root| + |st.root| < 382
    ensures Commands.Handle(cfg, st, cmd, data, env).calls == [CallSpace(cfg.root + ['/'] + st.root + ['/'])]
  {
  }
}
