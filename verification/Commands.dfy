/** Every command on a mounted session, as dispatched by tnfs_decode (src/datagram.c): the new state, the
    reply, and the calls made to the operating system. */
module Commands {
  import opened CStrings
  import opened Endian
  import opened EntryOrder
  import opened Listing
  import opened DirHandle
  import opened Handles
  import opened Paging
  import opened DirCommands
  import opened FileCommands
  import opened Auth
  import Paths
  import Status

  // ---------- State, surroundings and results ----------

  /** The part of a session its commands work on. `builds` is history, which the server does not keep: the
      listings built for this session, in order. */
  datatype State = State(root: CString, slots: seq<Slot>, files: seq<FileSlot>, builds: seq<Build>)

  /** The root directory as tnfs_setroot keeps it. */
  type ServedRoot = s: CString | |s| < Paths.MAX_ROOT witness []

  /** The server's settings and its root directory. */
  datatype Config = Config(settings: Settings, root: ServedRoot)

  /** The time a request is handled, and what the operating system answers if it is asked. */
  datatype Env = Env(now: int, inside: bool, os: OsAnswer, enumeration: Enumeration)

  /** The calls through which the server reaches the file system. */
  datatype OsCall =
    | CallOpenDir(path: CString) | CallList(path: CString) | CallReadDir(stream: nat)
    | CallSeekDir(stream: nat, pos: U32) | CallTellDir(stream: nat)
    | CallMkdir(path: CString) | CallRmdir(path: CString) | CallUnlink(path: CString)
    | CallRename(path: CString, to: CString)
    | CallOpen(path: CString, mode: OpenMode, perm: U16) | CallClose(fd: nat)
    | CallRead(fd: nat, size: nat) | CallWrite(fd: nat, bytes: seq<U8>) | CallSeek(fd: nat, offset: int, whence: int)
    | CallStat(path: CString) | CallSpace(path: CString)

  /** The calls that can change the file system. */
  predicate Changes(c: OsCall) {
    c.CallMkdir? || c.CallRmdir? || c.CallUnlink? || c.CallRename? || c.CallWrite? ||
        (c.CallOpen? && c.mode != PURE_READ)
  }

  /** A reply that is saved for retransmission, one that is sent but not saved, or none. */
  datatype Out = Recorded(reply: Reply) | Refused(status: U8) | Silent

  datatype Done = Done(state: State, out: Out, calls: seq<OsCall>)

  function Only(st: State, status: U8): Done {
    Done(st, Recorded(Reply(status, [])), [])
  }

  // ---------- Directory commands ----------

  /** "%s/%s/%s" cut to the path buffer, then normalised; the root instead when it leads outside. */
  function DirPath(cfg: Config, st: State, name: CString, inside: bool): CString {
    if inside then Paths.Collapsed(Paths.Cut(Paths.RootPrefix(cfg.root, st.root) + name, MAX_TNFSPATH - 1), false)
        else cfg.root
  }

  function FilePath(cfg: Config, st: State, data: seq<U8>): CString {
    Paths.FullPath(cfg.root, st.root, Paths.NameIn(data))
  }

  predicate Terminated(data: seq<U8>) {
    data != [] && data[|data| - 1] == 0
  }

  function FromDirs(st: State, a: Answer, calls: seq<OsCall>): Done {
    Done(st.(slots := a.slots), Recorded(a.reply), calls)
  }

  function DoOpenDirCmd(cfg: Config, st: State, data: seq<U8>, env: Env): Done {
    if !Terminated(data) then Only(st, Status.EINVAL)
    else
      var path := DirPath(cfg, st, Paths.NameIn(data), env.inside);
      var opening := if env.os.failed then NotOpened(env.os.status) else Opened(env.os.number);
      var a := OpenDir(st.slots, path, env.now, opening);
      FromDirs(st, a, if Choose(st.slots, Key(path, 0, 0, None), false, env.now).index < 0 then []
          else [CallOpenDir(path)])
  }

  /** The handle a request names, when it is a number in range. */
  function HandleOf(st: State, data: seq<U8>, size: nat): (r: Option<nat>)
    requires size > 0
    ensures r.Some? ==> |data| == size && r.value < |st.slots|
  {
    if |data| == size && data[0] < |st.slots| then Some(data[0]) else None
  }

  function DoReadDir(st: State, data: seq<U8>, env: Env): Done {
    match HandleOf(st, data, 1)
    case None => Only(st, Status.EBADF)
    case Some(i) =>
      if !st.slots[i].open || st.slots[i].stream == 0 then Only(st, Status.EBADF)
      else
        var calls := [CallReadDir(st.slots[i].stream)];
        if env.os.failed then Done(st, Recorded(Reply(Status.EOF, [])), calls)
        else
          var name := Clipped(Paths.NameIn(env.os.bytes), MAX_FILENAME_LEN);
          Done(st, Recorded(Reply(Status.SUCCESS, Bytes(name) + [0])), calls)
  }

  function DoCloseDirCmd(st: State, data: seq<U8>): Done {
    match HandleOf(st, data, 1)
    case None => Only(st, Status.EBADF)
    case Some(i) => FromDirs(st, CloseDir(st.slots, i), [])
  }

  /** An open handle with a listing or a stream. */
  predicate Seekable(s: Slot) {
    s.open && (s.entries != [] || s.stream != 0)
  }

  function DoSeekDir(st: State, data: seq<U8>): Done {
    match HandleOf(st, data, 5)
    case None => Only(st, Status.EBADF)
    case Some(i) =>
      var s := st.slots[i];
      if !Seekable(s) then Only(st, Status.EBADF)
      else
        var pos := FromLe32(data[1..5]);
        if s.entries == [] then Done(st, Recorded(Reply(Status.SUCCESS, [])), [CallSeekDir(s.stream, pos)])
        else Only(st.(slots := st.slots[i := s.(cursor := Paging.SeekTarget(s.entries, pos))]), Status.SUCCESS)
  }

  function DoTellDir(st: State, data: seq<U8>, env: Env): Done {
    match HandleOf(st, data, 1)
    case None => Only(st, Status.EBADF)
    case Some(i) =>
      var s := st.slots[i];
      if !Seekable(s) then Only(st, Status.EBADF)
      else if s.entries == [] then Done(st, Recorded(Reply(Status.SUCCESS, Le32(Low32(env.os.number)))),
          [CallTellDir(s.stream)])
      else Done(st, Recorded(Reply(Status.SUCCESS, Le32(Low32(s.cursor)))), [])
  }

  /** The pattern and the directory of an OPENDIRX request of at least seven bytes: a single text is the
      directory, and an empty pattern is none. */
  function OpenDirXTexts(data: seq<U8>): (Option<CString>, CString)
    requires |data| >= 7 && Terminated(data)
  {
    var first := Paths.NameIn(data[4..]);
    assert |first| < |data[4..]| by { assert data[4..][|data| - 5] == 0; }
    if |first| + 5 == |data| then (None, first)
    else (if first == [] then None else Some(first), Paths.NameIn(data[4 + |first| + 1..]))
  }

  /** What an OPENDIRX request asks for. */
  function OpenDirXKey(cfg: Config, st: State, data: seq<U8>, inside: bool): (k: Key)
    requires |data| >= 7 && Terminated(data)
    ensures Asked(k)
  {
    var (pattern, dir) := OpenDirXTexts(data);
    Key(DirPath(cfg, st, dir, inside), data[0], data[1], pattern)
  }

  /** A listing is made unless there is no slot or a cached one serves. */
  predicate Lists(slots: seq<Slot>, k: Key, now: int) {
    var traverse := DirOptsOf(k.diropt).traverse;
    var c := Choose(slots, k, traverse, now);
    0 <= c.index < |c.slots| && !(traverse && c.slots[c.index].loaded)
  }

  ghost function DoOpenDirXCmd(cfg: Config, st: State, data: seq<U8>, env: Env): Done {
    if |data| < 7 || !Terminated(data) then Only(st, Status.EINVAL)
    else
      var k := OpenDirXKey(cfg, st, data, env.inside);
      var a := OpenDirX(st.slots, k, FromLe16(data[2..4]), env.now, env.enumeration);
      var built := NewBuild(st.slots, k, FromLe16(data[2..4]), env.now, env.enumeration);
      FromDirs(st.(builds := st.builds + built), a, if Lists(st.slots, k, env.now) then [CallList(k.path)] else [])
  }

  /** READDIRX looks at the cursor of any handle in range, open or not. */
  function DoReadDirXCmd(st: State, data: seq<U8>): Done {
    match HandleOf(st, data, 2)
    case None => Only(st, Status.EBADF)
    case Some(i) => Done(st.(slots := st.slots[i := AfterRead(st.slots[i], data[1])]),
        Recorded(ReadReply(st.slots[i], data[1])), [])
  }

  // ---------- File commands ----------

  /** A command on one accepted name: the call, and its status. */
  function OnName(st: State, data: seq<U8>, env: Env, call: OsCall): Done {
    if !Paths.ValidName(data) then Only(st, Status.EINVAL)
    else Done(st, Recorded(Reply(if env.os.failed then env.os.status else Status.SUCCESS, [])), [call])
  }

  function FromFiles(st: State, a: FileAnswer, calls: seq<OsCall>): Done {
    Done(st.(files := a.files), Recorded(a.reply), calls)
  }

  function DoOpen(cfg: Config, st: State, data: seq<U8>, env: Env): Done {
    if |data| < 5 || !Paths.ValidName(data[4..]) then Only(st, Status.EINVAL)
    else
      var flags := FlagsOf(data[0], data[1]);
      if !OpenAllowed(cfg.settings.readOnly, flags) then Done(st, Refused(Status.EPERM), [])
      else
        var a := OpenFile(st.files, cfg.settings, MakeMode(flags), env.os);
        FromFiles(st, a, if FirstFree(st.files, 0) == |st.files| then []
            else [CallOpen(FilePath(cfg, st, data[4..]), MakeMode(flags), FromLe16(data[2..4]))])
  }

  /** The deprecated layout is rewritten into the current one, with mode 0644. */
  function Modern(data: seq<U8>): (r: seq<U8>)
    requires |data| >= 3
    ensures |r| == |data| + 2
  {
    var odd := data[1] % 2 == 1;
    [if odd then (if data[0] / 8 % 2 == 1 then 8 else 0) else data[0], data[1] / 2, 0xA4, 0x01] + data[2..]
  }

  function DoOpenOld(cfg: Config, st: State, data: seq<U8>, env: Env): Done {
    if |data| < 3 then Only(st, Status.EINVAL) else DoOpen(cfg, st, Modern(data), env)
  }

  function DoRead(cfg: Config, st: State, data: seq<U8>, env: Env): Done {
    FromFiles(st, ReadFile(st.files, cfg.settings, data, env.os),
      match SlotOf(st.files, data, 3) case None => [] case Some(i) => [CallRead(st.files[i].fd, ReadSize(data))])
  }

  function DoWrite(st: State, data: seq<U8>, env: Env): Done {
    FromFiles(st, WriteFile(st.files, data, env.os),
      match SlotOf(st.files, data, 4)
      case None => []
      case Some(i) => [CallWrite(st.files[i].fd, data[3..3 + WriteSize(data)])])
  }

  function DoSeek(st: State, data: seq<U8>, env: Env): Done {
    FromFiles(st, SeekFile(st.files, data, env.os),
      match SlotOf(st.files, data, 6)
      case None => []
      case Some(i) => if st.files[i].meta.binary then []
          else [CallSeek(st.files[i].fd, Signed32(FromLe32(data[2..6])), Whence(data[1]))])
  }

  function DoClose(cfg: Config, st: State, data: seq<U8>, env: Env): Done {
    FromFiles(st, CloseFile(st.files, cfg.settings, data, env.os),
      match SlotOf(st.files, data, 1) case None => [] case Some(i) => [CallClose(st.files[i].fd)])
  }

  function DoStat(cfg: Config, st: State, data: seq<U8>, env: Env): Done {
    if |data| < 2 || !Paths.ValidName(data) then Only(st, Status.EINVAL)
    else
      Done(st,
           Recorded(if env.os.failed then Reply(env.os.status, []) else Reply(Status.SUCCESS, Sized(env.os.bytes, 22))),
           [CallStat(FilePath(cfg, st, data))])
  }

  function DoRename(cfg: Config, st: State, data: seq<U8>, env: Env): Done {
    var from := Paths.NameIn(data);
    if |from| + 1 >= |data| || !Terminated(data) || !Paths.ValidName(data) || !Paths.ValidName(data[|from| + 1..])
    then Only(st, Status.EINVAL)
    else OnName(st, data, env, CallRename(FilePath(cfg, st, data), FilePath(cfg, st, data[|from| + 1..])))
  }

  function DoSpace(cfg: Config, st: State, env: Env, size: nat): Done {
    Done(st,
         Recorded(if env.os.failed then Reply(env.os.status, []) else Reply(Status.SUCCESS, Sized(env.os.bytes, size))),
         [CallSpace(Paths.Cut(Paths.RootPrefix(cfg.root, st.root), Paths.MAX_FILEPATH - 1))])
  }

  // ---------- Dispatch ----------

  /** The command tables; anything outside them is answered as a bad command. UMOUNT's reply is here, the
      end of the session is not. */
  ghost function Handle(cfg: Config, st: State, cmd: U8, data: seq<U8>, env: Env): Done {
    match cmd
    case 0x01 => Only(st, Status.SUCCESS)
    case 0x10 => DoOpenDirCmd(cfg, st, data, env)
    case 0x11 => DoReadDir(st, data, env)
    case 0x12 => DoCloseDirCmd(st, data)
    case 0x13 => OnName(st, data, env, CallMkdir(FilePath(cfg, st, data)))
    case 0x14 => OnName(st, data, env, CallRmdir(FilePath(cfg, st, data)))
    case 0x15 => DoTellDir(st, data, env)
    case 0x16 => DoSeekDir(st, data)
    case 0x17 => DoOpenDirXCmd(cfg, st, data, env)
    case 0x18 => DoReadDirXCmd(st, data)
    case 0x20 => DoOpenOld(cfg, st, data, env)
    case 0x21 => DoRead(cfg, st, data, env)
    case 0x22 => DoWrite(st, data, env)
    case 0x23 => DoClose(cfg, st, data, env)
    case 0x24 => DoStat(cfg, st, data, env)
    case 0x25 => DoSeek(st, data, env)
    case 0x26 => OnName(st, data, env, CallUnlink(FilePath(cfg, st, data)))
    case 0x27 => Done(st, Silent, [])
    case 0x28 => DoRename(cfg, st, data, env)
    case 0x29 => DoOpen(cfg, st, data, env)
    case 0x30 => DoSpace(cfg, st, env, 4)
    case 0x31 => DoSpace(cfg, st, env, 4)
    case 0x32 => DoSpace(cfg, st, env, 8)
    case 0x33 => DoSpace(cfg, st, env, 8)
    case _ => Only(st, Status.ENOSYS)
  }

  // ---------- What every command keeps ----------

  /** Every listed name fits its buffer. */
  predicate Namable(st: State) {
    forall i :: 0 <= i < |st.slots| ==> Listable(st.slots[i].entries)
  }

  lemma {:induction false} KeptIsListable(r: Rules, xs: seq<Found>)
    ensures Listable(Kept(r, xs))
  {
    if xs != [] {
      KeptIsListable(r, xs[..|xs| - 1]);
    }
  }

  lemma ListingIsListable(k: Key, path: CString, maxresults: U16, found: seq<Found>, ignores: seq<CString>)
    ensures Listable(ListingFor(k, path, maxresults, found, ignores))
  {
    var r := RulesFor(k, path, ignores);
    var s := FirstN(Kept(r, found), maxresults);
    var es := ListingFor(k, path, maxresults, found, ignores);
    KeptIsListable(r, found);
    ArrangedKeeps(s, DirOptsOf(k.diropt), SortOptsOf(k.sortopt));
    forall i | 0 <= i < |es|
      ensures |es[i].name| < MAX_FILENAME_LEN
    {
      assert es[i] in multiset(s);
    }
  }

  lemma ChoiceKeepsListable(slots: seq<Slot>, k: Key, reuse: bool, now: int)
    requires forall i :: 0 <= i < |slots| ==> Listable(slots[i].entries)
    ensures var c := Choose(slots, k, reuse, now).slots; forall i :: 0 <= i < |c| ==> Listable(c[i].entries)
  {
  }

  lemma HandleKeepsNamable(cfg: Config, st: State, cmd: U8, data: seq<U8>, env: Env)
    requires Namable(st)
    ensures Namable(Handle(cfg, st, cmd, data, env).state)
  {
    hide Choose, ListingFor, Listable, Paths.Collapsed;
    if cmd == 0x10 && Terminated(data) {
      var path := DirPath(cfg, st, Paths.NameIn(data), env.inside);
      ChoiceKeepsListable(st.slots, Key(path, 0, 0, None), false, env.now);
    }
    if cmd == 0x17 && |data| >= 7 && Terminated(data) {
      var k := OpenDirXKey(cfg, st, data, env.inside);
      ChoiceKeepsListable(st.slots, k, DirOptsOf(k.diropt).traverse, env.now);
      var c := Choose(st.slots, k, DirOptsOf(k.diropt).traverse, env.now);
      if 0 <= c.index < |c.slots| && env.enumeration.Enumerated? {
        ListingIsListable(k, c.slots[c.index].path, FromLe16(data[2..4]), env.enumeration.found,
            env.enumeration.ignores);
      }
    }
  }

  /** The largest payloads are a full READDIRX page and a full READBLOCK: no reply outgrows a message. */
  lemma RepliesFit(cfg: Config, st: State, cmd: U8, data: seq<U8>, env: Env)
    requires Namable(st)
    ensures var o := Handle(cfg, st, cmd, data, env).out; o.Recorded? ==> |o.reply.payload| <= MAX_PAYLOAD
  {
    hide Choose, ListingFor, Paths.Collapsed, Payload, OpenFile, ReadFile, WriteFile, SeekFile, CloseFile;
    FileRepliesFit(st.files, cfg.settings, PURE_READ, data, env.os);
    if cmd in {0x20, 0x29} {
      OpenReplyFits(cfg, st, data, env);
      if |data| >= 3 {
        OpenReplyFits(cfg, st, Modern(data), env);
      }
    }
    if cmd == 0x18 && HandleOf(st, data, 2).Some? {
      var s := st.slots[data[0]];
      if s.cursor < |s.entries| {
        PageFits(s.entries, s.cursor, data[1]);
      }
    }
  }

  lemma OpenReplyFits(cfg: Config, st: State, data: seq<U8>, env: Env)
    ensures var o := DoOpen(cfg, st, data, env).out; o.Recorded? ==> |o.reply.payload| <= 1
  {
  }

  /** The requests whose answer is never saved: a refused command, CHMOD, and an open refused by its flags.
      This depends on the request and the settings alone. */
  predicate Unsaved(cfg: Config, cmd: U8, data: seq<U8>) {
    || !CmdAllowed(cfg.settings.readOnly, cmd)
    || cmd == CHMODFILE
    || (cmd == 0x29 && OpenRefused(cfg, data))
    || (cmd == 0x20 && |data| >= 3 && OpenRefused(cfg, Modern(data)))
  }

  predicate OpenRefused(cfg: Config, data: seq<U8>) {
    |data| >= 5 && Paths.ValidName(data[4..]) &&
        !OpenAllowed(cfg.settings.readOnly, FlagsOf(data[0], data[1]))
  }

  /** An answer that is not saved comes without any effect, and is the same whenever it is given. */
  lemma UnsavedHasNoEffect(cfg: Config, st: State, cmd: U8, data: seq<U8>, env: Env)
    requires CmdAllowed(cfg.settings.readOnly, cmd)
    ensures var d := Handle(cfg, st, cmd, data, env);
      if Unsaved(cfg, cmd, data) then d == Done(st, if cmd == CHMODFILE then Silent else Refused(Status.EPERM), [])
      else d.out.Recorded?
  {
    hide Choose, ListingFor, Paths.Collapsed, Paths.ValidName, OpenFile, ReadFile, WriteFile, SeekFile, CloseFile,
        FirstFree, OpenAllowed, FlagsOf, MakeMode, OpenDir, OpenDirX, CloseDir;
  }

  lemma OpenCallsOnlyRead(cfg: Config, st: State, data: seq<U8>, env: Env)
    requires cfg.settings.readOnly
    ensures forall c :: c in DoOpen(cfg, st, data, env).calls ==> !Changes(c)
  {
    hide Paths.Collapsed, Paths.ValidName, OpenFile, FirstFree, OpenAllowed, FlagsOf, MakeMode;
    if |data| >= 5 {
      ReadOnlyOpensArePureReads(FlagsOf(data[0], data[1]));
    }
  }

  /** In read-only mode nothing that reaches a handler asks the operating system for a change. */
  lemma ReadOnlyCallsOnlyRead(cfg: Config, st: State, cmd: U8, data: seq<U8>, env: Env)
    requires cfg.settings.readOnly && CmdAllowed(true, cmd)
    ensures forall c :: c in Handle(cfg, st, cmd, data, env).calls ==> !Changes(c)
  {
    hide Choose, ListingFor, Paths.Collapsed, Paths.ValidName, ReadFile, SeekFile, CloseFile, OpenDir, OpenDirX,
        CloseDir, DoOpen, Modern, Lists;
    if cmd == 0x29 {
      OpenCallsOnlyRead(cfg, st, data, env);
    } else if cmd == 0x20 && |data| >= 3 {
      OpenCallsOnlyRead(cfg, st, Modern(data), env);
    }
  }

  // ---------- Where cached listings come from ----------

  lemma OpenDirKeepsSourced(slots: seq<Slot>, path: CString, now: int, opening: Opening, log: seq<Build>)
    requires AllOk(slots) && Sourced(slots, log)
    ensures Sourced(OpenDir(slots, path, now, opening).slots, log)
  {
    hide Choose, ListingFor, DirOptsOf;
    var k := Key(path, 0, 0, None);
    ChoiceKeepsSourced(slots, k, false, now, log);
    ChosenIsReset(slots, k, false, now);
  }

  lemma NewBuildIsAsked(slots: seq<Slot>, k: Key, maxresults: U16, now: int, e: Enumeration)
    requires Asked(k)
    ensures AllAsked(NewBuild(slots, k, maxresults, now, e))
  {
  }

  lemma OneSlotKeepsSourced(slots: seq<Slot>, i: nat, s: Slot, log: seq<Build>)
    requires Sourced(slots, log) && i < |slots|
    requires s.(cursor := 0, open := false, stream := 0) == slots[i].(cursor := 0, open := false, stream := 0)
    ensures Sourced(slots[i := s], log)
  {
    hide DirOptsOf, Told;
    if s.loaded {
      SameListingIsTold(log, slots[i], s);
    }
  }

  /** Through every command each cached listing stays one that was built for a request of this session which
      the slot records. */
  lemma HandleKeepsSourced(cfg: Config, st: State, cmd: U8, data: seq<U8>, env: Env)
    requires AllOk(st.slots) && Sourced(st.slots, st.builds) && AllAsked(st.builds)
    ensures var after := Handle(cfg, st, cmd, data, env).state;
        Sourced(after.slots, after.builds) && AllAsked(after.builds)
  {
    hide Choose, ListingFor, DirOptsOf, AllOk, Sourced, OpenDir, OpenDirX, Paths.Collapsed, Paths.ValidName,
         OpenFile, ReadFile, WriteFile, SeekFile, CloseFile, OpenAllowed, NewBuild;
    match cmd
    case 0x10 =>
      if Terminated(data) {
        var opening := if env.os.failed then NotOpened(env.os.status) else Opened(env.os.number);
        OpenDirKeepsSourced(st.slots, DirPath(cfg, st, Paths.NameIn(data), env.inside), env.now, opening, st.builds);
      }
    case 0x12 =>
      if HandleOf(st, data, 1).Some? && st.slots[data[0]].open {
        var s := st.slots[data[0]];
        OneSlotKeepsSourced(st.slots, data[0],
            s.(open := false, stream := if s.loaded then s.stream else 0), st.builds);
      }
    case 0x16 =>
      if HandleOf(st, data, 5).Some? {
        var s := st.slots[data[0]];
        OneSlotKeepsSourced(st.slots, data[0],
            s.(cursor := Paging.SeekTarget(s.entries, FromLe32(data[1..5]))), st.builds);
      }
    case 0x17 =>
      if |data| >= 7 && Terminated(data) {
        var k := OpenDirXKey(cfg, st, data, env.inside);
        OpenDirXKeepsSourced(st.slots, k, FromLe16(data[2..4]), env.now, env.enumeration, st.builds);
        NewBuildIsAsked(st.slots, k, FromLe16(data[2..4]), env.now, env.enumeration);
      }
    case 0x18 =>
      if HandleOf(st, data, 2).Some? {
        OneSlotKeepsSourced(st.slots, data[0], AfterRead(st.slots[data[0]], data[1]), st.builds);
      }
    case _ =>
  }

  lemma RootIsKept(cfg: Config, st: State, cmd: U8, data: seq<U8>, env: Env)
    ensures Handle(cfg, st, cmd, data, env).state.root == st.root
  {
    hide Choose, ListingFor, Paths.Collapsed, Paths.ValidName, OpenFile, ReadFile, WriteFile, SeekFile, CloseFile,
        FirstFree, OpenAllowed, FlagsOf, MakeMode, OpenDir, OpenDirX, CloseDir;
  }
}
