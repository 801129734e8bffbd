/** Who holds which directory stream and file descriptor: within a session no handler loses or duplicates
    one, and several holders share what is open without overlap (src/directory.c, src/tnfs_file.c). */
module Ownership {
  import opened Endian
  import opened Listing
  import opened DirHandle
  import opened Handles
  import opened Paging
  import opened DirCommands
  import opened FileCommands
  import opened Auth
  import opened Commands
  import Paths

  // ---------- Several holders ----------

  function Union(parts: seq<set<nat>>): set<nat> {
    set i, x | 0 <= i < |parts| && x in parts[i] :: x
  }

  /** What is open is exactly what the parts hold, and no two parts hold the same. */
  ghost predicate Exact(parts: seq<set<nat>>, open: set<nat>) {
    && open == Union(parts)
    && forall i, j :: 0 <= i < j < |parts| ==> parts[i] !! parts[j]
  }

  lemma PartIsOpen(parts: seq<set<nat>>, open: set<nat>, i: nat)
    requires Exact(parts, open) && i < |parts|
    ensures parts[i] <= open
  {
  }

  /** A part that gives up some of its own and gains only what was not open keeps the shares exact. */
  lemma ReplacePart(parts: seq<set<nat>>, open: set<nat>, i: nat, part: set<nat>)
    requires Exact(parts, open) && i < |parts| && part !! (open - parts[i])
    ensures Exact(parts[i := part], (open - parts[i]) + part)
  {
    var after := parts[i := part];
    assert forall j :: 0 <= j < |parts| && j != i ==> after[j] == parts[j] && parts[j] <= open - parts[i];
    forall x
      ensures x in Union(after) <==> x in (open - parts[i]) + part
    {
      if x in open - parts[i] {
        var j :| 0 <= j < |parts| && x in parts[j];
        assert x in after[j];
      }
      if x in part {
        assert x in after[i];
      }
    }
  }

  /** What the parts lose from one moment to the next. */
  function Lost(parts: seq<set<nat>>, after: seq<set<nat>>): set<nat> {
    set i, x | 0 <= i < |parts| && i < |after| && x in parts[i] && x !in after[i] :: x
  }

  lemma ShrinkParts(parts: seq<set<nat>>, open: set<nat>, after: seq<set<nat>>)
    requires Exact(parts, open) && |after| == |parts| && forall i :: 0 <= i < |parts| ==> after[i] <= parts[i]
    ensures Exact(after, open - Lost(parts, after))
  {
    forall x
      ensures x in Union(after) <==> x in open - Lost(parts, after)
    {
      if x in Union(after) {
        var i :| 0 <= i < |after| && x in after[i];
        assert x in parts[i];
        assert x !in Lost(parts, after);
      }
      if x in open - Lost(parts, after) {
        var i :| 0 <= i < |parts| && x in parts[i];
        assert x in after[i];
      }
    }
  }

  // ---------- One session ----------

  predicate Sound(st: State, set_: Settings) {
    AllOk(st.slots) && FilesOk(st.files, set_)
  }

  /** A stream or descriptor the operating system hands out is not one that is open at that moment. */
  predicate Answerable(cfg: Config, st: State, cmd: U8, data: seq<U8>, env: Env, dirs: set<nat>, files: set<nat>) {
    match cmd
    case 0x10 => Terminated(data) && !env.os.failed ==>
      NewStream(env.os.number, OpenOnceChosen(st.slots, dirs,
          Key(DirPath(cfg, st, Paths.NameIn(data), env.inside), 0, 0, None), false, env.now))
    case 0x17 => |data| >= 7 && Terminated(data) ==>
      var k := OpenDirXKey(cfg, st, data, env.inside);
      Plausible(env.enumeration, OpenOnceChosen(st.slots, dirs, k, DirOptsOf(k.diropt).traverse, env.now))
    case 0x20 => !env.os.failed ==> env.os.number !in files
    case 0x29 => !env.os.failed ==> env.os.number !in files
    case _ => true
  }

  predicate BothConserve(st: State, dirs: set<nat>, files: set<nat>, after: State) {
    && Conserves(st.slots, dirs, after.slots, (dirs - Held(st.slots)) + Held(after.slots))
    && ConservesFiles(st.files, files, after.files, (files - HeldFiles(st.files)) + HeldFiles(after.files))
  }

  lemma NothingMoved(st: State, dirs: set<nat>, files: set<nat>)
    requires Owns(st.slots, dirs) && OwnsFiles(st.files, files)
    ensures BothConserve(st, dirs, files, st)
  {
    SameStreamsConserve(st.slots, dirs, st.slots);
    SameFds(st.files, files, st.files);
  }

  /** A slot whose stream stays: the cursor commands. */
  lemma CursorMoved(st: State, set_: Settings, dirs: set<nat>, files: set<nat>, i: nat, s: Slot)
    requires Sound(st, set_) && Owns(st.slots, dirs) && OwnsFiles(st.files, files) && i < |st.slots|
    requires SlotOk(s) && s.stream == st.slots[i].stream
    ensures var after := st.(slots := st.slots[i := s]); Sound(after, set_) && BothConserve(st, dirs, files, after)
  {
    NothingMoved(st, dirs, files);
    SameStreamsConserve(st.slots, dirs, st.slots[i := s]);
    assert Held(st.slots[i := s]) <= dirs;
  }

  lemma DirsMoved(st: State, set_: Settings, dirs: set<nat>, files: set<nat>, slots: seq<Slot>, builds: seq<Build>)
    requires Sound(st, set_) && OwnsFiles(st.files, files) && AllOk(slots)
    requires Conserves(st.slots, dirs, slots, (dirs - Held(st.slots)) + Held(slots))
    ensures var after := st.(slots := slots, builds := builds);
        Sound(after, set_) && BothConserve(st, dirs, files, after)
  {
    SameFds(st.files, files, st.files);
  }

  lemma FilesMoved(st: State, set_: Settings, dirs: set<nat>, files: set<nat>, fs: seq<FileSlot>)
    requires Sound(st, set_) && Owns(st.slots, dirs) && FilesOk(fs, set_)
    requires ConservesFiles(st.files, files, fs, (files - HeldFiles(st.files)) + HeldFiles(fs))
    ensures var after := st.(files := fs); Sound(after, set_) && BothConserve(st, dirs, files, after)
  {
    SameStreamsConserve(st.slots, dirs, st.slots);
  }

  lemma OpenConserves(cfg: Config, st: State, data: seq<U8>, env: Env, dirs: set<nat>, files: set<nat>)
    requires Sound(st, cfg.settings) && Owns(st.slots, dirs) && OwnsFiles(st.files, files)
    requires !env.os.failed ==> env.os.number !in files
    ensures var after := DoOpen(cfg, st, data, env).state;
        Sound(after, cfg.settings) && BothConserve(st, dirs, files, after)
  {
    hide OpenFile, AllOk, Owns, OwnsFiles, BothConserve, FlagsOf, MakeMode, FilesOk, Conserves, ConservesFiles,
        Paths.ValidName;
    NothingMoved(st, dirs, files);
    if |data| >= 5 {
      var mode := MakeMode(FlagsOf(data[0], data[1]));
      OpenFileKeeps(st.files, cfg.settings, mode, env.os, files);
      FilesMoved(st, cfg.settings, dirs, files, OpenFile(st.files, cfg.settings, mode, env.os).files);
    }
  }

  /** Every command keeps a session's slots sound, opens at most what the operating system just handed out,
      and closes at most what the session held. */
  lemma HandleConserves(cfg: Config, st: State, cmd: U8, data: seq<U8>, env: Env, dirs: set<nat>, files: set<nat>)
    requires Sound(st, cfg.settings) && Owns(st.slots, dirs) && OwnsFiles(st.files, files)
    requires Answerable(cfg, st, cmd, data, env, dirs, files)
    ensures var after := Commands.Handle(cfg, st, cmd, data, env).state;
        Sound(after, cfg.settings) && BothConserve(st, dirs, files, after)
  {
    if cmd < 0x20 {
      DirHandleConserves(cfg, st, cmd, data, env, dirs, files);
    } else {
      FileHandleConserves(cfg, st, cmd, data, env, dirs, files);
    }
  }

  lemma DirHandleConserves(cfg: Config, st: State, cmd: U8, data: seq<U8>, env: Env, dirs: set<nat>, files: set<nat>)
    requires Sound(st, cfg.settings) && Owns(st.slots, dirs) && OwnsFiles(st.files, files) && cmd < 0x20
    requires Answerable(cfg, st, cmd, data, env, dirs, files)
    ensures var after := Commands.Handle(cfg, st, cmd, data, env).state;
        Sound(after, cfg.settings) && BothConserve(st, dirs, files, after)
  {
    hide Choose, Owns, OwnsFiles, BothConserve, Conserves, ConservesFiles, OpenDir, OpenDirX, CloseDir, Held,
        HeldFiles, Terminated, FilesOk, OpenOnceChosen, NewStream, Plausible;
    NothingMoved(st, dirs, files);
    match cmd
    case 0x10 =>
      if Terminated(data) {
        var path := DirPath(cfg, st, Paths.NameIn(data), env.inside);
        var opening := if env.os.failed then NotOpened(env.os.status) else Opened(env.os.number);
        OpenDirKeeps(st.slots, path, env.now, opening, dirs);
        DirsMoved(st, cfg.settings, dirs, files, OpenDir(st.slots, path, env.now, opening).slots, st.builds);
      }
    case 0x12 =>
      if HandleOf(st, data, 1).Some? {
        CloseDirKeeps(st.slots, data[0], dirs);
        DirsMoved(st, cfg.settings, dirs, files, CloseDir(st.slots, data[0]).slots, st.builds);
      }
    case 0x16 =>
      if HandleOf(st, data, 5).Some? {
        var s := st.slots[data[0]];
        CursorMoved(st, cfg.settings, dirs, files, data[0],
            s.(cursor := Paging.SeekTarget(s.entries, FromLe32(data[1..5]))));
      }
    case 0x17 =>
      if |data| >= 7 && Terminated(data) {
        var k := OpenDirXKey(cfg, st, data, env.inside);
        OpenDirXKeeps(st.slots, k, FromLe16(data[2..4]), env.now, env.enumeration, dirs);
        DirsMoved(st, cfg.settings, dirs, files,
            OpenDirX(st.slots, k, FromLe16(data[2..4]), env.now, env.enumeration).slots,
                  Commands.Handle(cfg, st, cmd, data, env).state.builds);
      }
    case 0x18 =>
      if HandleOf(st, data, 2).Some? {
        CursorMoved(st, cfg.settings, dirs, files, data[0], AfterRead(st.slots[data[0]], data[1]));
      }
    case _ =>
  }

  lemma FileHandleConserves(cfg: Config, st: State, cmd: U8, data: seq<U8>, env: Env, dirs: set<nat>, files: set<nat>)
    requires Sound(st, cfg.settings) && Owns(st.slots, dirs) && OwnsFiles(st.files, files) && cmd >= 0x20
    requires Answerable(cfg, st, cmd, data, env, dirs, files)
    ensures var after := Commands.Handle(cfg, st, cmd, data, env).state;
        Sound(after, cfg.settings) && BothConserve(st, dirs, files, after)
  {
    hide Owns, OwnsFiles, BothConserve, Conserves, ConservesFiles, Held, HeldFiles, AllOk, FilesOk, DoOpen,
         ReadFile, WriteFile, SeekFile, CloseFile, Modern, Paths.ValidName;
    NothingMoved(st, dirs, files);
    match cmd
    case 0x20 =>
      if |data| >= 3 {
        OpenConserves(cfg, st, Modern(data), env, dirs, files);
      }
    case 0x21 =>
      PositionsConserve(cfg, st, data, env, dirs, files);
      FilesMoved(st, cfg.settings, dirs, files, ReadFile(st.files, cfg.settings, data, env.os).files);
    case 0x22 =>
      PositionsConserve(cfg, st, data, env, dirs, files);
    case 0x23 =>
      CloseFileKeeps(st.files, cfg.settings, data, env.os, files);
      FilesMoved(st, cfg.settings, dirs, files, CloseFile(st.files, cfg.settings, data, env.os).files);
    case 0x25 =>
      PositionsConserve(cfg, st, data, env, dirs, files);
      FilesMoved(st, cfg.settings, dirs, files, SeekFile(st.files, data, env.os).files);
    case 0x29 =>
      OpenConserves(cfg, st, data, env, dirs, files);
    case _ =>
  }

  lemma PositionsConserve(cfg: Config, st: State, data: seq<U8>, env: Env, dirs: set<nat>, files: set<nat>)
    requires Sound(st, cfg.settings) && OwnsFiles(st.files, files)
    ensures var a := ReadFile(st.files, cfg.settings, data, env.os).files;
      FilesOk(a, cfg.settings) && ConservesFiles(st.files, files, a, (files - HeldFiles(st.files)) + HeldFiles(a))
    ensures var a := SeekFile(st.files, data, env.os).files;
      FilesOk(a, cfg.settings) && ConservesFiles(st.files, files, a, (files - HeldFiles(st.files)) + HeldFiles(a))
    ensures WriteFile(st.files, data, env.os).files == st.files
  {
    hide ReadFile, WriteFile, SeekFile;
    PositionsKeep(st.files, cfg.settings, data, env.os, files);
  }
}
