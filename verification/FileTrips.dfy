/** A file through its requests (src/tnfs_file.c): OPEN, then WRITEBLOCK, LSEEK and READBLOCK on the descriptor
    it answered, on an operating system that keeps the file, and CLOSE. */
module FileTrips {
  import opened CStrings
  import opened Endian
  import opened Listing
  import opened Paging
  import opened FileCommands
  import opened Auth
  import opened Commands
  import Paths

  // ---------- A file as the operating system keeps it ----------

  /** The file open as fd, and where reading and writing go on in it. */
  datatype Disk = Disk(fd: nat, content: seq<U8>, pos: nat)

  /** n bytes of s from index i on, or as many as there are. */
  function Slice(s: seq<U8>, i: nat, n: nat): seq<U8>
    requires i <= |s|
  {
    if i + n <= |s| then s[i..i + n] else s[i..]
  }

  /** s with the bytes of b written over it from index i on. */
  function Over(s: seq<U8>, i: nat, b: seq<U8>): (r: seq<U8>)
    requires i <= |s|
    ensures i + |b| <= |r|
  {
    s[..i] + b + (if i + |b| < |s| then s[i + |b|..] else [])
  }

  /** Where a seek leads; -1 if in front of the file. */
  function SoughtPlace(d: Disk, offset: int, whence: int): int {
    var to := (if whence == 0 then 0 else if whence == 1 then d.pos else |d.content|) + offset;
    if to < 0 then -1 else to
  }

  /** What a call on the open file does, and what it returns. */
  datatype Effect = Effect(disk: Disk, failed: bool, number: nat, bytes: seq<U8>)

  function Perform(d: Disk, c: OsCall): Effect
    requires d.pos <= |d.content|
  {
    match c
    case CallRead(fd, n) =>
      if fd != d.fd then Effect(d, true, 0, [])
      else
        var b := Slice(d.content, d.pos, n);
        Effect(d.(pos := d.pos + |b|), false, |b|, b)
    case CallWrite(fd, b) =>
      if fd != d.fd then Effect(d, true, 0, [])
      else Effect(d.(content := Over(d.content, d.pos, b), pos := d.pos + |b|), false, |b|, [])
    case CallSeek(fd, offset, whence) =>
      var to := SoughtPlace(d, offset, whence);
      if fd != d.fd || to < 0 then Effect(d, true, 0, []) else Effect(d.(pos := to), false, to, [])
    case _ => Effect(d, true, 0, [])
  }

  /** A request handled while the operating system answers its one call from the file. */
  datatype Acted = Acted(state: State, out: Out, disk: Disk)

  ghost function Act(cfg: Config, st: State, d: Disk, cmd: U8, data: seq<U8>, env: Env): Acted
    requires d.pos <= |d.content|
  {
    var calls := Commands.Handle(cfg, st, cmd, data, env).calls;
    if |calls| != 1 then
      var h := Commands.Handle(cfg, st, cmd, data, env);
      Acted(h.state, h.out, d)
    else
      var e := Perform(d, calls[0]);
      var os := env.os.(failed := e.failed, number := e.number, bytes := e.bytes);
      var h := Commands.Handle(cfg, st, cmd, data, env.(os := os));
      Acted(h.state, h.out, e.disk)
  }

  // ---------- One request ----------

  /** Descriptor h of the session is the file, and not served as an Atari image. */
  predicate HasFile(st: State, h: U8, fd: nat) {
    h < |st.files| && fd != 0 && st.files[h].fd == fd && !st.files[h].meta.binary
  }

  lemma OneWrite(cfg: Config, st: State, d: Disk, h: U8, b: seq<U8>, env: Env)
    requires HasFile(st, h, d.fd) && d.pos <= |d.content| && 1 <= |b| <= 512
    ensures Act(cfg, st, d, 0x22, [h] + Le16(|b|) + b, env)
            == Acted(st, Recorded(Reply(0, Le16(|b|))), d.(content := Over(d.content, d.pos, b), pos := d.pos + |b|))
  {
    var data: seq<U8> := [h] + Le16(|b|) + b;
    assert data[1..3] == Le16(|b|) && data[3..] == b;
    RoundTrip16(|b|, []);
    assert WriteSize(data) == |b| && data[3..3 + WriteSize(data)] == b;
    hide Le16, FromLe16, Over;
    assert SlotOf(st.files, data, 4) == Some(h as nat);
    var h0 := Commands.Handle(cfg, st, 0x22, data, env);
    assert h0.calls == [CallWrite(d.fd, b)];
  }

  /** What is left to read at most n bytes of. */
  function Next(d: Disk, n: nat): seq<U8>
    requires d.pos <= |d.content|
  {
    Slice(d.content, d.pos, if n < 512 then n else 512)
  }

  lemma OneRead(cfg: Config, st: State, d: Disk, h: U8, n: U16, env: Env)
    requires HasFile(st, h, d.fd) && d.pos <= |d.content|
    ensures var b := Next(d, n);
      Act(cfg, st, d, 0x21, [h] + Le16(n), env)
      == Acted(st, Recorded(if b == [] then Reply(0x21, []) else Reply(0, Le16(|b|) + b)), d.(pos := d.pos + |b|))
  {
    var data: seq<U8> := [h] + Le16(n);
    assert data[1..3] == Le16(n);
    RoundTrip16(n, []);
    hide Le16, FromLe16;
    assert SlotOf(st.files, data, 3) == Some(h as nat);
    var h0 := Commands.Handle(cfg, st, 0x21, data, env);
    assert h0.calls == [CallRead(d.fd, if n < 512 then n else 512)];
  }

  lemma SeekBytes(h: U8, whence: U8, offset: int)
    requires -0x8000_0000 <= offset < 0x8000_0000
    ensures var data: seq<U8> := [h, whence] + Le32(offset % 0x1_0000_0000);
      |data| == 6 && data[0] == h && data[1] == whence && Signed32(FromLe32(data[2..6])) == offset
  {
    var v: U32 := offset % 0x1_0000_0000;
    var data: seq<U8> := [h, whence] + Le32(v);
    assert data[2..6] == Le32(v);
    RoundTrip32(v, []);
    SignedBack(offset);
  }

  lemma SeekIsHandled(cfg: Config, st: State, h: U8, fd: nat, whence: U8, offset: int, env: Env)
    requires HasFile(st, h, fd) && whence <= 2 && -0x8000_0000 <= offset < 0x8000_0000
    ensures var done := Commands.Handle(cfg, st, 0x25, [h, whence] + Le32(offset % 0x1_0000_0000), env);
      && done.calls == [CallSeek(fd, offset, whence)] && done.state == st
      && (!env.os.failed && env.os.number < 0x8000_0000 ==> done.out == Recorded(Reply(0, Le32(env.os.number))))
  {
    SeekBytes(h, whence, offset);
    var data: seq<U8> := [h, whence] + Le32(offset % 0x1_0000_0000);
    hide Le32, FromLe32, Signed32;
    Unsigned(env.os.number);
    assert SlotOf(st.files, data, 6) == Some(h as nat);
    assert Commands.Handle(cfg, st, 0x25, data, env) == DoSeek(st, data, env);
    hide Commands.Handle;
    assert Whence(whence) == whence;
  }

  lemma Unsigned(n: nat)
    ensures n < 0x8000_0000 ==> Low32(n) == n && Signed32(n) == n
  {
  }

  lemma SignedBack(offset: int)
    requires -0x8000_0000 <= offset < 0x8000_0000
    ensures Signed32(offset % 0x1_0000_0000) == offset
  {
  }

  /** LSEEK to a place before 2^31 that is not in front of the file, from its start (0), the current place (1) or
      its end (2). */
  lemma OneSeek(cfg: Config, st: State, d: Disk, h: U8, whence: U8, offset: int, env: Env)
    requires HasFile(st, h, d.fd) && d.pos <= |d.content| && whence <= 2
    requires -0x8000_0000 <= offset < 0x8000_0000 && 0 <= SoughtPlace(d, offset, whence) < 0x8000_0000
    ensures var to := SoughtPlace(d, offset, whence);
      Act(cfg, st, d, 0x25, [h, whence] + Le32(offset % 0x1_0000_0000), env)
      == Acted(st, Recorded(Reply(0, Le32(to))), d.(pos := to))
  {
    hide Commands.Handle, Le32;
    SeekIsHandled(cfg, st, h, d.fd, whence, offset, env);
    var to := SoughtPlace(d, offset, whence);
    var os := env.os.(failed := false, number := to, bytes := []);
    SeekIsHandled(cfg, st, h, d.fd, whence, offset, env.(os := os));
  }

  lemma OpenBytes(lo: U8, hi: U8, perm: U16, name: CString)
    ensures var data: seq<U8> := [lo, hi] + Le16(perm) + Paths.Sent(name);
      && |data| >= 5 && data[0] == lo && data[1] == hi && FromLe16(data[2..4]) == perm
      && Paths.NameIn(data[4..]) == name && (Paths.ValidName(data[4..]) <==> !Paths.DotDot(name))
  {
    var data: seq<U8> := [lo, hi] + Le16(perm) + Paths.Sent(name);
    assert data[2..4] == Le16(perm) && data[4..] == Paths.Sent(name);
    assert Paths.Sent(name) + [] == Paths.Sent(name);
    Paths.NameInSent(name, []);
    RoundTrip16(perm, []);
  }

  /** With a descriptor to spare, OPEN hands the path, the mode and the permissions of the request on, and
      answers with the descriptor that has the file. */
  lemma OpenGetsFile(cfg: Config, st: State, lo: U8, hi: U8, perm: U16, name: CString, env: Env) returns (h: U8)
    requires FilesOk(st.files, cfg.settings) && exists i :: 0 <= i < |st.files| && st.files[i].fd == 0
    requires !Paths.DotDot(name) && OpenAllowed(cfg.settings.readOnly, FlagsOf(lo, hi))
    requires !env.os.failed && env.os.number != 0 && env.os.virtualSize.None?
    ensures var d := Commands.Handle(cfg, st, 0x29, [lo, hi] + Le16(perm) + Paths.Sent(name), env);
      && d.out == Recorded(Reply(0, [h])) && HasFile(d.state, h, env.os.number)
      && d.calls == [CallOpen(Paths.FullPath(cfg.root, st.root, name), MakeMode(FlagsOf(lo, hi)), perm)]
  {
    hide FlagsOf, MakeMode, OpenAllowed, Paths.FullPath, Paths.NameIn, Paths.DotDot, Paths.ValidName, Le16, FromLe16;
    var data: seq<U8> := [lo, hi] + Le16(perm) + Paths.Sent(name);
    OpenBytes(lo, hi, perm, name);
    assert Commands.Handle(cfg, st, 0x29, data, env) == DoOpen(cfg, st, data, env);
    hide Commands.Handle;
    h := FirstFree(st.files, 0);
  }

  /** The deprecated OPEN is OPEN with the second flag byte halved and mode 0644; if its last bit is
      set, all bits but 0x08 are taken from the first. */
  lemma OldOpenIs(cfg: Config, st: State, lo: U8, hi: U8, name: CString, env: Env)
    ensures var first := if hi % 2 == 0 then lo else if lo % 16 >= 8 then 8 else 0;
      Commands.Handle(cfg, st, 0x20, [lo, hi] + Paths.Sent(name), env)
      == Commands.Handle(cfg, st, 0x29, [first, hi / 2] + Le16(0x1A4) + Paths.Sent(name), env)
  {
    hide Paths.Sent, DoOpen;
    var was: seq<U8> := [lo, hi] + Paths.Sent(name);
    var first: U8 := if hi % 2 == 0 then lo else if lo % 16 >= 8 then 8 else 0;
    assert lo / 8 % 2 == 1 <==> lo % 16 >= 8 by {
      Eighth(lo);
    }
    assert was[2..] == Paths.Sent(name);
    assert Modern(was) == [first, hi / 2] + Le16(0x1A4) + Paths.Sent(name);
    assert Commands.Handle(cfg, st, 0x20, was, env) == DoOpen(cfg, st, Modern(was), env);
  }

  lemma Eighth(b: U8)
    ensures b / 8 % 2 == 1 <==> b % 16 >= 8
  {
    var high, low := b / 16, b % 16;
    assert b / 8 == 2 * high + low / 8;
  }

  /** So a deprecated OPEN with an odd second flag byte opens the file for reading, whatever it asks for. */
  lemma OddOldOpensRead(hi: U8)
    ensures MakeMode(FlagsOf(0, hi)).access == ReadOnly && !MakeMode(FlagsOf(0, hi)).append
    ensures MakeMode(FlagsOf(8, hi)).access == ReadOnly
  {
    LowFlags(hi as bv8);
  }

  lemma LowFlags(hi: bv8)
    ensures MakeMode(Flags(0, hi)).access == ReadOnly && !MakeMode(Flags(0, hi)).append
    ensures MakeMode(Flags(8, hi)).access == ReadOnly
  {
  }

  /** CLOSE closes the file, and then the descriptor is bad and nothing is read. */
  lemma CloseEndsFile(cfg: Config, st: State, h: U8, fd: nat, env: Env, n: U16, later: Env)
    requires HasFile(st, h, fd)
    ensures var d := Commands.Handle(cfg, st, 0x23, [h], env);
      && d.calls == [CallClose(fd)] && (!env.os.failed ==> d.out == Recorded(Reply(0, [])))
      && |d.state.files| == |st.files| && d.state.slots == st.slots
      && (forall i :: 0 <= i < |st.files| && i != h as int ==> d.state.files[i] == st.files[i])
      && var r := Commands.Handle(cfg, d.state, 0x21, [h] + Le16(n), later);
         r == Done(d.state, Recorded(Reply(0x1C, [])), [])
  {
    hide Le16;
    assert SlotOf(st.files, [h], 1) == Some(h as nat);
  }

  // ---------- Runs of requests ----------

  datatype Block = Block(bytes: seq<U8>, env: Env)
  datatype Count = Count(count: U16, env: Env)

  function BytesOf(blocks: seq<Block>): seq<U8>
    decreases |blocks|
  {
    if blocks == [] then [] else blocks[0].bytes + BytesOf(blocks[1..])
  }

  /** Blocks as a WRITEBLOCK can carry them. */
  predicate Sendable(blocks: seq<Block>) {
    forall i :: 0 <= i < |blocks| ==> 1 <= |blocks[i].bytes| <= 512
  }

  datatype Written = Written(state: State, disk: Disk, accepted: nat)

  /** Block after block; `accepted` counts the answers that confirm the whole block. */
  ghost function WriteAll(cfg: Config, st: State, d: Disk, h: U8, blocks: seq<Block>): Written
    requires d.pos <= |d.content|
    decreases |blocks|
  {
    if blocks == [] then Written(st, d, 0)
    else
      var b := blocks[0].bytes;
      var a := Act(cfg, st, d, 0x22, [h] + Le16(|b| % 65536) + b, blocks[0].env);
      if a.disk.pos > |a.disk.content| then Written(a.state, a.disk, 0)
      else
        var rest := WriteAll(cfg, a.state, a.disk, h, blocks[1..]);
        rest.(accepted := rest.accepted + if a.out == Recorded(Reply(0, Le16(|b| % 65536))) then 1 else 0)
  }

  lemma OverOver(s: seq<U8>, i: nat, a: seq<U8>, b: seq<U8>)
    requires i <= |s|
    ensures Over(Over(s, i, a), i + |a|, b) == Over(s, i, a + b)
  {
    var once, both := Over(s, i, a), Over(s, i, a + b);
    assert once[..i + |a|] == s[..i] + a;
    if i + |a| + |b| < |s| {
      assert once[i + |a| + |b|..] == s[i + |a| + |b|..];
    }
  }

  /** All blocks are confirmed, and stand in the file one behind the other from where it was. */
  lemma {:induction false} WritingLands(cfg: Config, st: State, d: Disk, h: U8, blocks: seq<Block>)
    requires HasFile(st, h, d.fd) && d.pos <= |d.content| && Sendable(blocks)
    ensures var b := BytesOf(blocks);
      WriteAll(cfg, st, d, h, blocks)
      == Written(st, d.(content := Over(d.content, d.pos, b), pos := d.pos + |b|), |blocks|)
    decreases |blocks|
  {
    hide Act, Le16, Over;
    if blocks == [] {
      OverNothing(d.content, d.pos);
    } else {
      var b := blocks[0].bytes;
      OneWrite(cfg, st, d, h, b, blocks[0].env);
      OverOver(d.content, d.pos, b, BytesOf(blocks[1..]));
      var next := d.(content := Over(d.content, d.pos, b), pos := d.pos + |b|);
      WritingLands(cfg, st, next, h, blocks[1..]);
    }
  }

  lemma OverNothing(s: seq<U8>, i: nat)
    requires i <= |s|
    ensures Over(s, i, []) == s
  {
  }

  datatype Read = Read(state: State, disk: Disk, bytes: seq<U8>, ended: bool)

  /** Block after block until the end of the file is answered; the client takes what comes behind the count. */
  ghost function ReadAll(cfg: Config, st: State, d: Disk, h: U8, counts: seq<Count>): Read
    requires d.pos <= |d.content|
    decreases |counts|
  {
    if counts == [] then Read(st, d, [], false)
    else
      var a := Act(cfg, st, d, 0x21, [h] + Le16(counts[0].count), counts[0].env);
      if a.disk.pos > |a.disk.content| || !a.out.Recorded? || a.out.reply.status != 0 || |a.out.reply.payload| < 2 then
        Read(a.state, a.disk, [], a.out == Recorded(Reply(0x21, [])))
      else
        var rest := ReadAll(cfg, a.state, a.disk, h, counts[1..]);
        rest.(bytes := a.out.reply.payload[2..] + rest.bytes)
  }

  /** Reading brings the file from where it is on, in order; with as many requests as there are bytes left, and
      one for the end, all of it. */
  lemma {:induction false} ReadingBrings(cfg: Config, st: State, d: Disk, h: U8, counts: seq<Count>)
    requires HasFile(st, h, d.fd) && d.pos <= |d.content|
    requires forall i :: 0 <= i < |counts| ==> counts[i].count > 0
    ensures var r := ReadAll(cfg, st, d, h, counts);
      var to := d.pos + |r.bytes|;
      && to <= |d.content| && r.bytes == d.content[d.pos..to] && r.state == st && r.disk == d.(pos := to)
      && (|counts| > |d.content| - d.pos ==> r.ended && to == |d.content|) && (r.ended ==> to == |d.content|)
    decreases |counts|
  {
    hide Act, Le16;
    if counts != [] {
      var b := Next(d, counts[0].count);
      OneRead(cfg, st, d, h, counts[0].count, counts[0].env);
      if b != [] {
        BehindCount(b);
        ReadingBrings(cfg, st, d.(pos := d.pos + |b|), h, counts[1..]);
      }
    }
  }

  lemma BehindCount(b: seq<U8>)
    requires |b| < 65536
    ensures |Le16(|b|) + b| >= 2 && (Le16(|b|) + b)[2..] == b
  {
  }

  /** What is written is what is read: after any blocks, a seek back to where they began and enough reads, the
      client has the blocks joined, and behind them what the file has behind them. */
  lemma WrittenIsRead(
    cfg: Config, st: State, d: Disk, h: U8, blocks: seq<Block>, seeking: Env, counts: seq<Count>)
    requires HasFile(st, h, d.fd) && d.pos <= |d.content| && d.pos < 0x8000_0000 && Sendable(blocks)
    requires forall i :: 0 <= i < |counts| ==> counts[i].count > 0
    requires |counts| > |d.content| + |BytesOf(blocks)|
    ensures var w := WriteAll(cfg, st, d, h, blocks);
      && w.accepted == |blocks| && w.disk.pos <= |w.disk.content|
      && var s := Act(cfg, w.state, w.disk, 0x25, [h, 0] + Le32(d.pos), seeking);
         && s.disk.pos <= |s.disk.content|
         && var r := ReadAll(cfg, s.state, s.disk, h, counts);
            && r.ended && r.state == st && BytesOf(blocks) <= r.bytes
            && r.bytes[|BytesOf(blocks)|..]
                == Slice(d.content, Least(d.pos + |BytesOf(blocks)|, |d.content|), |d.content|)
  {
    hide Act, Le32, WriteAll, ReadAll, Over;
    var b := BytesOf(blocks);
    WritingLands(cfg, st, d, h, blocks);
    var w := WriteAll(cfg, st, d, h, blocks);
    OneSeek(cfg, st, w.disk, h, 0, d.pos, seeking);
    OverParts(d.content, d.pos, b);
    ReadingBrings(cfg, st, w.disk.(pos := d.pos), h, counts);
  }

  lemma OverParts(s: seq<U8>, i: nat, b: seq<U8>)
    requires i <= |s|
    ensures var o := Over(s, i, b);
      && |o| == (if i + |b| < |s| then |s| else i + |b|)
      && o[i..i + |b|] == b && o[i + |b|..] == Slice(s, Least(i + |b|, |s|), |s|)
  {
  }
}
