/** The descriptor slots of a session as the handlers of src/tnfs_file.c update them, each handler proved
    to do what FileCommands says. */
module FileTable {
  import opened Endian
  import opened Listing
  import opened Paging
  import opened FileCommands
  import opened Auth
  import Atari
  import Os
  import Status

  /** Puts the count in front of the n bytes read and replies with both. */
  method CountAndBytes(iobuf: array<U8>, n: nat, ghost bytes: seq<U8>) returns (reply: Reply)
    requires n + 2 <= iobuf.Length && n < 65536 && |bytes| == n && forall k :: 0 <= k < n ==> iobuf[2 + k] == bytes[k]
    modifies iobuf
    ensures reply == Reply(Status.SUCCESS, Le16(n) + bytes)
  {
    PutLe16(iobuf, 0, n);
    assert forall k :: 0 <= k < n ==> iobuf[2 + k] == bytes[k];
    assert iobuf[0] == Le16(n)[0] && iobuf[1] == Le16(n)[1];
    reply := Reply(Status.SUCCESS, iobuf[..n + 2]);
    assert iobuf[..n + 2] == Le16(n) + bytes;
  }

  class Table {
    const fds: array<nat>
    const virtuals: seq<Atari.VirtualFile>

    ghost predicate Valid() {
      && fds.Length == |virtuals| == MAX_FDS
      && forall i, j :: 0 <= i < j < |virtuals| ==> virtuals[i] != virtuals[j]
    }

    ghost function MetaOf(v: Atari.VirtualFile): Meta
      reads v
    {
      Meta(v.isBinary, v.position, v.realSize)
    }

    ghost function View(): (s: seq<FileSlot>)
      requires Valid()
      reads fds, virtuals
      ensures |s| == MAX_FDS && forall i :: 0 <= i < MAX_FDS ==> s[i] == FileSlot(fds[i], MetaOf(virtuals[i]))
    {
      seq(MAX_FDS, i requires 0 <= i < MAX_FDS reads fds, virtuals => FileSlot(fds[i], MetaOf(virtuals[i])))
    }

    constructor ()
      ensures Valid() && fresh(fds) && fresh(virtuals) && View() == seq(MAX_FDS, _ => FileSlot(0, NO_META))
    {
      var vs: seq<Atari.VirtualFile> := [];
      while |vs| < MAX_FDS
        invariant |vs| <= MAX_FDS && fresh(vs)
        invariant forall i, j :: 0 <= i < j < |vs| ==> vs[i] != vs[j]
        invariant forall i :: 0 <= i < |vs| ==> !vs[i].isBinary && vs[i].position == 0 && vs[i].realSize == 0
      {
        var v := new Atari.VirtualFile();
        vs := vs + [v];
      }
      virtuals := vs;
      fds := new nat[MAX_FDS](_ => 0);
    }

    /** The slot loop of tnfs_open. */
    method FindFree() returns (i: nat)
      requires Valid()
      ensures i == FirstFree(View(), 0)
    {
      i := 0;
      while i < MAX_FDS && fds[i] != 0
        invariant i <= MAX_FDS && FirstFree(View(), i) == FirstFree(View(), 0)
      {
        i := i + 1;
      }
    }

    /** tnfs_open from its slot loop on. */
    method Open(set_: Settings, mode: OpenMode, answer: OsAnswer, os: Os.System) returns (reply: Reply)
      requires Valid() && OwnsFiles(View(), os.files)
      requires !answer.failed && answer.number != 0 ==> answer.number !in os.files
      modifies fds, virtuals, os`files
      ensures FileAnswer(View(), reply) == OpenFile(old(View()), set_, mode, answer)
      ensures ConservesFiles(old(View()), old(os.files), View(), os.files)
    {
      var i := FindFree();
      if i == MAX_FDS {
        return Reply(Status.EMFILE, []);
      }
      if answer.failed || answer.number == 0 {
        return Reply(answer.status, []);
      }
      os.OpenedFile(answer.number);
      if MayVirtualize(set_, mode) && answer.virtualSize.Some? {
        virtuals[i].Mark(answer.virtualSize.value);
      }
      fds[i] := answer.number;
      HeldAfter(old(View()), i, View()[i]);
      assert View() == old(View())[i := View()[i]];
      reply := Reply(Status.SUCCESS, [i % 256]);
    }

    /** validate_fd: 0 when the request names no slot in use. */
    method ValidateFd(data: seq<U8>, size: nat) returns (fd: nat)
      requires Valid() && size > 0
      ensures fd == match SlotOf(View(), data, size) case None => 0 case Some(i) => fds[i]
      ensures fd != 0 <==> SlotOf(View(), data, size).Some?
    {
      if |data| < size || data[0] >= MAX_FDS || fds[data[0]] == 0 {
        return 0;
      }
      fd := fds[data[0]];
    }

    /** tnfs_close. */
    method Close(set_: Settings, data: seq<U8>, answer: OsAnswer, os: Os.System) returns (reply: Reply)
      requires Valid() && OwnsFiles(View(), os.files)
      modifies fds, virtuals, os`files
      ensures FileAnswer(View(), reply) == CloseFile(old(View()), set_, data, answer)
      ensures ConservesFiles(old(View()), old(os.files), View(), os.files)
    {
      var fd := ValidateFd(data, 1);
      if fd == 0 {
        return Reply(Status.EBADFD, []);
      }
      var i := data[0];
      assert View()[i].fd in HeldFiles(View());
      os.CloseFile(fd);
      if set_.atari {
        virtuals[i].Clear();
      }
      fds[i] := 0;
      HeldAfter(old(View()), i, View()[i]);
      assert View() == old(View())[i := View()[i]];
      reply := Reply(if answer.failed then answer.status else Status.SUCCESS, []);
    }

    /** tnfs_lseek. */
    method Seek(data: seq<U8>, answer: OsAnswer) returns (reply: Reply)
      requires Valid() && forall i :: 0 <= i < MAX_FDS ==> virtuals[i].position >= 0
      modifies virtuals
      ensures FileAnswer(View(), reply) == SeekFile(old(View()), data, answer)
    {
      var fd := ValidateFd(data, 6);
      if fd == 0 {
        return Reply(Status.EBADFD, []);
      }
      var i := data[0];
      var result;
      if virtuals[i].isBinary {
        result := virtuals[i].Seek(Signed32(FromLe32(data[2..6])), Whence(data[1]));
        assert View() == old(View())[i := View()[i]];
      } else if answer.failed {
        result := -1;
      } else {
        result := answer.number;
      }
      var low := Low32(result);
      if Signed32(low) < 0 {
        reply := Reply(answer.status, []);
      } else {
        reply := Reply(Status.SUCCESS, Le32(low));
      }
    }

    /** The read itself, virtual or not; n is negative when it fails. */
    method Fill(i: nat, set_: Settings, want: nat, answer: OsAnswer, iobuf: array<U8>)
        returns (n: int, ghost bytes: seq<U8>)
      requires Valid() && i < MAX_FDS && virtuals[i].position >= 0
      requires iobuf.Length == MAX_IOSZ + 2 && want <= MAX_IOSZ && iobuf != fds as object
      modifies virtuals[i], iobuf
      ensures n <= MAX_IOSZ && (n >= 0 ==> |bytes| == n && forall k :: 0 <= k < n ==> iobuf[2 + k] == bytes[k])
      ensures var m: Meta := old(View()[i].meta);
        if m.binary then
          && n == Atari.Returned(set_.boot, m.size, m.position, want, answer.access)
          && View() == old(View())[i := old(View()[i]).(meta := m.(position := m.position + Atari.Max(n, 0)))]
          && (n >= 0 ==> bytes == Atari.Bytes(set_.boot, Sized(answer.bytes, m.size), m.position, n))
        else
          && View() == old(View())
          && (if answer.failed then n < 0 else n >= 0 && bytes == FileCommands.Cut(answer.bytes, want))
    {
      hide Atari.Returned, Atari.FilePart, Atari.FileStart, Atari.Wanted, Atari.ImageByte, Sized;
      bytes := [];
      if virtuals[i].isBinary {
        ghost var p := virtuals[i].position;
        var file := Sized(answer.bytes, virtuals[i].realSize);
        Atari.ReturnedBounds(set_.boot, |file|, p, want, answer.access);
        n := virtuals[i].Read(set_.boot, file, iobuf, 2, want, answer.access);
        bytes := if n < 0 then [] else Atari.Bytes(set_.boot, file, p, n);
        assert View() == old(View())[i := View()[i]];
      } else if answer.failed {
        n := -1;
      } else {
        bytes := FileCommands.Cut(answer.bytes, want);
        Atari.Copy(iobuf, 2, FileCommands.Cut(answer.bytes, want));
        n := |FileCommands.Cut(answer.bytes, want)|;
      }
    }

    /** tnfs_read, through the server's I/O buffer, whose first two bytes are left for the count. */
    method Read(set_: Settings, data: seq<U8>, answer: OsAnswer, iobuf: array<U8>) returns (reply: Reply)
      requires Valid() && iobuf.Length == MAX_IOSZ + 2 && iobuf != fds as object
      requires forall i :: 0 <= i < MAX_FDS ==> virtuals[i].position >= 0
      modifies virtuals, iobuf
      ensures FileAnswer(View(), reply) == ReadFile(old(View()), set_, data, answer)
    {
      hide Atari.Returned, Atari.Bytes, Sized;
      var fd := ValidateFd(data, 3);
      if fd == 0 {
        return Reply(Status.EBADFD, []);
      }
      var n, bytes := Fill(data[0], set_, ReadSize(data), answer, iobuf);
      if n > 0 {
        reply := CountAndBytes(iobuf, n, bytes);
      } else if n == 0 {
        reply := Reply(Status.EOF, []);
      } else {
        reply := Reply(answer.status, []);
      }
    }

    /** The file part of tnfs_freesession. */
    method CloseAll(os: Os.System)
      requires Valid() && OwnsFiles(View(), os.files)
      modifies os`files
      ensures os.files == old(os.files) - HeldFiles(View())
    {
      for i := 0 to MAX_FDS
        invariant os.files == old(os.files) - (set k | 0 <= k < i && View()[k].fd != 0 :: View()[k].fd)
      {
        if fds[i] != 0 {
          assert View()[i].fd in HeldFiles(View());
          assert forall k :: 0 <= k < i && View()[k].fd != 0 ==> View()[k].fd != View()[i].fd;
          os.CloseFile(fds[i]);
        }
      }
    }
  }
}
