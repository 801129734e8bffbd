/** An Atari binary through its requests (src/tnfs_file.c, src/atari.c): OPEN for reading makes it a disk image,
    and READBLOCK and LSEEK then work on the image instead of the file. */
module ImageTrips {
  import opened CStrings
  import opened Endian
  import opened Listing
  import opened Paging
  import opened FileCommands
  import opened Auth
  import opened Commands
  import FileTrips
  import Atari
  import Paths

  /** Descriptor h has a binary of this size open as fd, served as an image, and reading goes on at pos. */
  predicate HasImage(st: State, h: U8, fd: nat, size: nat, pos: nat) {
    h < |st.files| && fd != 0 && st.files[h] == FileSlot(fd, Meta(true, pos, size))
  }

  /** OPEN of a binary gives an image, at its start, exactly if images are served and the mode only reads and
      neither creates nor appends; any other mode gives the file itself. */
  lemma OpenGetsImage(cfg: Config, st: State, lo: U8, hi: U8, perm: U16, name: CString, env: Env) returns (h: U8)
    requires FilesOk(st.files, cfg.settings) && exists i :: 0 <= i < |st.files| && st.files[i].fd == 0
    requires !Paths.DotDot(name) && OpenAllowed(cfg.settings.readOnly, FlagsOf(lo, hi))
    requires !env.os.failed && env.os.number != 0 && env.os.virtualSize.Some?
    ensures var d := Commands.Handle(cfg, st, 0x29, [lo, hi] + Le16(perm) + Paths.Sent(name), env);
      var m := MakeMode(FlagsOf(lo, hi));
      && d.out == Recorded(Reply(0, [h]))
      && if cfg.settings.atari && m.access == ReadOnly && !m.creat && !m.append
         then HasImage(d.state, h, env.os.number, env.os.virtualSize.value, 0)
         else FileTrips.HasFile(d.state, h, env.os.number)
  {
    hide FlagsOf, MakeMode, OpenAllowed, Paths.FullPath, Paths.NameIn, Paths.DotDot, Paths.ValidName, Le16, FromLe16;
    var data: seq<U8> := [lo, hi] + Le16(perm) + Paths.Sent(name);
    FileTrips.OpenBytes(lo, hi, perm, name);
    assert Commands.Handle(cfg, st, 0x29, data, env) == DoOpen(cfg, st, data, env);
    hide Commands.Handle;
    h := FirstFree(st.files, 0);
  }

  /** The image of the file that the operating system has behind the descriptor. */
  function ImageOf(cfg: Config, file: seq<U8>): seq<U8> {
    Atari.Image(cfg.settings.boot, file)
  }

  /** What a read at pos of at most n bytes brings of an image. */
  function Next(image: seq<U8>, pos: nat, n: U16): seq<U8> {
    if pos >= |image| then [] else FileTrips.Slice(image, pos, if n < 512 then n else 512)
  }

  /** The answers of the operating system are about this file, and a read delivers what it is asked for. */
  predicate Tells(file: seq<U8>, env: Env) {
    env.os.bytes == file && env.os.access.Reads? && env.os.access.most >= 512
  }

  lemma ReadBytes(h: U8, n: U16)
    ensures var data: seq<U8> := [h] + Le16(n);
      |data| == 3 && data[0] == h && ReadSize(data) == if n < 512 then n else 512
  {
    assert ([h] + Le16(n))[1..3] == Le16(n);
    RoundTrip16(n, []);
  }

  lemma FullRead(boot: seq<U8>, size: nat, pos: nat, n: nat, access: Atari.FileAccess)
    requires n <= 512 && access.Reads? && access.most >= 512
    ensures Atari.Full(boot, size, pos, n, access)
  {
  }

  lemma ReadIsHandled(cfg: Config, st: State, data: seq<U8>, env: Env)
    ensures var d := Commands.Handle(cfg, st, 0x21, data, env);
      var a := ReadFile(st.files, cfg.settings, data, env.os);
      d.out == Recorded(a.reply) && d.state == st.(files := a.files)
  {
    hide ReadFile;
  }

  lemma ImageRead(cfg: Config, st: State, h: U8, fd: nat, file: seq<U8>, pos: nat, n: U16, env: Env)
    requires FilesOk(st.files, cfg.settings) && HasImage(st, h, fd, |file|, pos) && Tells(file, env)
    ensures var b := Next(ImageOf(cfg, file), pos, n);
      var d := Commands.Handle(cfg, st, 0x21, [h] + Le16(n), env);
      && d.out == Recorded(if b == [] then Reply(0x21, []) else Reply(0, Le16(|b|) + b))
      && HasImage(d.state, h, fd, |file|, pos + |b|) && FilesOk(d.state.files, cfg.settings)
  {
    var data: seq<U8> := [h] + Le16(n);
    ReadBytes(h, n);
    assert Sized(file, |file|) == file;
    FullRead(cfg.settings.boot, |file|, pos, ReadSize(data), env.os.access);
    hide Commands.Handle, ReadFile, ReadSize, Atari.Image, Atari.Full, Le16;
    assert SlotOf(st.files, data, 3) == Some(h as nat);
    ReadIsHandled(cfg, st, data, env);
    AtariReadIsSlice(st.files, cfg.settings, data, env.os, h);
    WantedIsNext(ImageOf(cfg, file), pos, n);
  }

  /** A read of the file behind the image that fails: with none of its bytes in the answer the client is told the
      status, and the place stays; with header, boot code or padding in front, the answer stops where the file
      begins. */
  lemma FailingRead(cfg: Config, st: State, h: U8, fd: nat, size: nat, pos: nat, n: U16, env: Env)
    requires FilesOk(st.files, cfg.settings) && HasImage(st, h, fd, size, pos) && 0 < n <= 512 && size > 0
    requires env.os.access.ReadFails?
    ensures var start := Atari.FileStart(cfg.settings.boot);
      var d := Commands.Handle(cfg, st, 0x21, [h] + Le16(n), env);
      && (start <= pos < start + size && pos < 262160 ==> d.out == Recorded(Reply(env.os.status, [])) && d.state == st)
      && (pos < start < pos + n && start < 262160 ==>
            && d.out.Recorded? && d.out.reply.status == 0 && |d.out.reply.payload| == 2 + start - pos
            && d.out.reply.payload[..2] == Le16(start - pos) && HasImage(d.state, h, fd, size, start))
  {
    var data: seq<U8> := [h] + Le16(n);
    ReadBytes(h, n);
    hide Commands.Handle, ReadSize, Le16, Atari.ImageByte, Atari.FileStart;
    assert SlotOf(st.files, data, 3) == Some(h as nat);
    ReadIsHandled(cfg, st, data, env);
    assert st.files[h := st.files[h]] == st.files;
  }

  datatype Read = Read(state: State, bytes: seq<U8>, ended: bool)

  /** Block after block until the end of the file is answered; the client takes what comes behind the count. */
  ghost function ReadAll(cfg: Config, st: State, h: U8, counts: seq<FileTrips.Count>): Read
    decreases |counts|
  {
    if counts == [] then Read(st, [], false)
    else
      var d := Commands.Handle(cfg, st, 0x21, [h] + Le16(counts[0].count), counts[0].env);
      if !d.out.Recorded? || d.out.reply.status != 0 || |d.out.reply.payload| < 2 then
        Read(d.state, [], d.out == Recorded(Reply(0x21, [])))
      else
        var rest := ReadAll(cfg, d.state, h, counts[1..]);
        rest.(bytes := d.out.reply.payload[2..] + rest.bytes)
  }

  /** Reading brings the image from where it is on, in order; the end is answered at its end only, and enough
      requests bring all of it. */
  lemma {:induction false} ReadingBringsImage(
    cfg: Config, st: State, h: U8, fd: nat, file: seq<U8>, pos: nat, counts: seq<FileTrips.Count>)
    requires FilesOk(st.files, cfg.settings) && HasImage(st, h, fd, |file|, pos) && pos <= 262160
    requires forall i :: 0 <= i < |counts| ==> counts[i].count > 0 && Tells(file, counts[i].env)
    ensures var r := ReadAll(cfg, st, h, counts);
      var to := pos + |r.bytes|;
      && |ImageOf(cfg, file)| == 262160 && to <= 262160 && r.bytes == ImageOf(cfg, file)[pos..to]
      && HasImage(r.state, h, fd, |file|, to)
      && (|counts| > 262160 - pos ==> r.ended && to == 262160) && (r.ended ==> to == 262160)
    decreases |counts|
  {
    hide Commands.Handle, Le16, Atari.Image, FilesOk, Tells, Next;
    var image := ImageOf(cfg, file);
    if counts != [] {
      var b := Next(image, pos, counts[0].count);
      ImageRead(cfg, st, h, fd, file, pos, counts[0].count, counts[0].env);
      NextIsThere(image, pos, counts[0].count);
      if b != [] {
        FileTrips.BehindCount(b);
        var d := Commands.Handle(cfg, st, 0x21, [h] + Le16(counts[0].count), counts[0].env);
        ReadingBringsImage(cfg, d.state, h, fd, file, pos + |b|, counts[1..]);
      }
    }
  }

  lemma NextIsThere(image: seq<U8>, pos: nat, n: U16)
    requires pos <= |image| && n > 0
    ensures var b := Next(image, pos, n);
      |b| <= 512 && pos + |b| <= |image| && b == image[pos..pos + |b|] && (b == [] ==> pos == |image|)
  {
  }

  /** LSEEK moves in the image, whose end is that of the disk and not of the file, and asks the operating system
      for nothing. */
  lemma ImageSeek(cfg: Config, st: State, h: U8, fd: nat, size: nat, pos: nat, whence: U8, offset: int, env: Env)
    requires HasImage(st, h, fd, size, pos) && whence <= 2 && -0x8000_0000 <= offset < 0x8000_0000
    ensures var to := offset + if whence == 0 then 0 else if whence == 1 then pos else 262160;
      var d := Commands.Handle(cfg, st, 0x25, [h, whence] + Le32(offset % 0x1_0000_0000), env);
      && d.calls == []
      && (0 <= to < 0x8000_0000 ==> HasImage(d.state, h, fd, size, to) && d.out == Recorded(Reply(0, Le32(to))))
      && (to < 0 ==> d.state == st && d.out == Recorded(Reply(env.os.status, [])))
  {
    FileTrips.SeekBytes(h, whence, offset);
    var to := offset + if whence == 0 then 0 else if whence == 1 then pos else 262160;
    var data: seq<U8> := [h, whence] + Le32(offset % 0x1_0000_0000);
    hide Le32, FromLe32, Signed32, Low32;
    if to >= 0 {
      FileTrips.Unsigned(to);
    }
    assert SlotOf(st.files, data, 6) == Some(h as nat);
    assert Commands.Handle(cfg, st, 0x25, data, env) == DoSeek(st, data, env);
    hide Commands.Handle;
    assert Whence(whence) == whence;
  }

  lemma WantedIsNext(image: seq<U8>, pos: nat, n: U16)
    requires |image| == Atari.TOTAL_SIZE
    ensures var k := Atari.Wanted(pos, if n < 512 then n else 512);
      |Next(image, pos, n)| == k && (k > 0 ==> pos + k <= |image| && Next(image, pos, n) == image[pos..pos + k])
  {
  }
}
