/** The file descriptor slots of a session and the commands on them (src/tnfs_file.c). */
module FileCommands {
  import opened Endian
  import opened Listing
  import opened Paging
  import opened Auth
  import Atari
  import Status

  const MAX_FDS := 16
  const MAX_IOSZ := 512

  /** The Atari metadata of a slot. */
  datatype Meta = Meta(binary: bool, position: int, size: nat)

  const NO_META := Meta(false, 0, 0)

  /** One descriptor slot; 0 means free. */
  datatype FileSlot = FileSlot(fd: nat, meta: Meta)

  /** What the operating system answers to the calls a file command makes: a failure status, or a number
      or bytes, as the call gives. For an Atari file the bytes are the file's, and `access` says how many of
      them the one read delivers. */
  datatype OsAnswer = OsAnswer(failed: bool, status: U8, number: nat, bytes: seq<U8>, virtualSize: Option<nat>,
      access: Atari.FileAccess)

  /** The server's fixed settings. */
  datatype Settings = Settings(readOnly: bool, atari: bool, boot: seq<U8>)

  // ---------- The commands on values ----------

  datatype FileAnswer = FileAnswer(files: seq<FileSlot>, reply: Reply)

  function FirstFree(files: seq<FileSlot>, i: nat): (r: nat)
    requires i <= |files|
    ensures i <= r <= |files|
    ensures forall k :: i <= k < r ==> files[k].fd != 0
    ensures r < |files| ==> files[r].fd == 0
    decreases |files| - i
  {
    if i == |files| || files[i].fd == 0 then i else FirstFree(files, i + 1)
  }

  /** Is a file opened this way served as an ATR image, if it is an Atari binary? */
  predicate MayVirtualize(set_: Settings, mode: OpenMode) {
    set_.atari && mode.access == ReadOnly && !mode.creat && !mode.append
  }

  /** tnfs_open once the name and the flags are accepted. */
  function OpenFile(files: seq<FileSlot>, set_: Settings, mode: OpenMode, os: OsAnswer): FileAnswer {
    var i := FirstFree(files, 0);
    if i == |files| then FileAnswer(files, Reply(Status.EMFILE, []))
    else if os.failed || os.number == 0 then FileAnswer(files, Reply(os.status, []))
    else
      var meta := if MayVirtualize(set_, mode) && os.virtualSize.Some? then Meta(true, 0, os.virtualSize.value)
          else files[i].meta;
      FileAnswer(files[i := FileSlot(os.number, meta)], Reply(Status.SUCCESS, [i % 256]))
  }

  /** validate_fd: the slot a request names, if it is long enough and the slot is in use. */
  function SlotOf(files: seq<FileSlot>, data: seq<U8>, size: nat): (r: Option<nat>)
    requires size > 0
    ensures r.Some? ==> |data| >= size && r.value < |files| && files[r.value].fd != 0
  {
    if |data| < size || data[0] >= |files| || files[data[0]].fd == 0 then None else Some(data[0])
  }

  function BadFd(files: seq<FileSlot>): FileAnswer {
    FileAnswer(files, Reply(Status.EBADFD, []))
  }

  function Least(a: nat, b: nat): nat { if a < b then a else b }

  function Cut(s: seq<U8>, n: nat): (r: seq<U8>)
    ensures |r| <= n
  {
    if |s| <= n then s else s[..n]
  }

  /** The reply to a read that returned these bytes. */
  function BytesReply(bytes: seq<U8>): Reply
    requires |bytes| < 65536
  {
    if bytes == [] then Reply(Status.EOF, []) else Reply(Status.SUCCESS, Le16(|bytes|) + bytes)
  }

  /** How many bytes a READBLOCK asks for. */
  function ReadSize(data: seq<U8>): (n: nat)
    requires |data| >= 3
    ensures n <= MAX_IOSZ
  {
    Least(FromLe16(data[1..3]), MAX_IOSZ)
  }

  function ReadFile(files: seq<FileSlot>, set_: Settings, data: seq<U8>, os: OsAnswer): FileAnswer {
    match SlotOf(files, data, 3)
    case None => BadFd(files)
    case Some(i) =>
      var want, meta := ReadSize(data), files[i].meta;
      if meta.binary && meta.position >= 0 then
        var r := Atari.Returned(set_.boot, meta.size, meta.position, want, os.access);
        if r < 0 then FileAnswer(files, Reply(os.status, []))
        else
          FileAnswer(files[i := files[i].(meta := meta.(position := meta.position + r))],
                     BytesReply(Atari.Bytes(set_.boot, Sized(os.bytes, meta.size), meta.position, Least(r, MAX_IOSZ))))
      else if os.failed then FileAnswer(files, Reply(os.status, []))
      else FileAnswer(files, BytesReply(Cut(os.bytes, want)))
  }

  /** n bytes of what the operating system reported; what it does not have counts as 0. */
  function Sized(bytes: seq<U8>, n: nat): (r: seq<U8>)
    ensures |r| == n && forall i :: 0 <= i < n ==> r[i] == if i < |bytes| then bytes[i] else 0
  {
    seq(n, i requires 0 <= i < n => if i < |bytes| then bytes[i] else 0)
  }

  /** How many bytes a WRITEBLOCK hands to write(): what it declares, but no more than arrived. */
  function WriteSize(data: seq<U8>): (n: nat)
    requires |data| >= 4
    ensures n <= MAX_IOSZ && n <= |data| - 3
  {
    Least(Least(FromLe16(data[1..3]), |data| - 3), MAX_IOSZ)
  }

  function WriteFile(files: seq<FileSlot>, data: seq<U8>, os: OsAnswer): FileAnswer {
    match SlotOf(files, data, 4)
    case None => BadFd(files)
    case Some(i) =>
      var n := Least(os.number, WriteSize(data));
      if os.failed || n == 0 then FileAnswer(files, Reply(os.status, []))
      else FileAnswer(files, Reply(Status.SUCCESS, Le16(n)))
  }

  /** A C int32_t from its unsigned 32 bits. */
  function Signed32(v: U32): int {
    if v < 0x8000_0000 then v else v - 0x1_0000_0000
  }

  /** The unsigned 32 bits of a long result converted to int32_t. */
  function Low32(v: int): U32 {
    v % 0x1_0000_0000
  }

  /** getwhence: 0 set, 1 current, 2 end; anything else means set. */
  function Whence(b: U8): int {
    if b == 1 then 1 else if b == 2 then 2 else 0
  }

  function SeekTarget(position: int, offset: int, whence: int): int {
    if whence == 0 then offset else if whence == 1 then position + offset else Atari.TOTAL_SIZE + offset
  }

  function SeekReply(result: int, status: U8): Reply {
    if Signed32(Low32(result)) < 0 then Reply(status, []) else Reply(Status.SUCCESS, Le32(Low32(result)))
  }

  function SeekFile(files: seq<FileSlot>, data: seq<U8>, os: OsAnswer): FileAnswer {
    match SlotOf(files, data, 6)
    case None => BadFd(files)
    case Some(i) =>
      var meta := files[i].meta;
      if meta.binary then
        var target := SeekTarget(meta.position, Signed32(FromLe32(data[2..6])), Whence(data[1]));
        if target < 0 then FileAnswer(files, Reply(os.status, []))
        else FileAnswer(files[i := files[i].(meta := meta.(position := target))], SeekReply(target, os.status))
      else if os.failed then FileAnswer(files, Reply(os.status, []))
      else FileAnswer(files, SeekReply(os.number, os.status))
  }

  /** The slot is released whether or not close() succeeds. */
  function CloseFile(files: seq<FileSlot>, set_: Settings, data: seq<U8>, os: OsAnswer): FileAnswer {
    match SlotOf(files, data, 1)
    case None => BadFd(files)
    case Some(i) =>
      FileAnswer(files[i := FileSlot(0, if set_.atari then NO_META else files[i].meta)],
                 Reply(if os.failed then os.status else Status.SUCCESS, []))
  }

  // ---------- Who owns which descriptor ----------

  function HeldFiles(files: seq<FileSlot>): set<nat> {
    set i | 0 <= i < |files| && files[i].fd != 0 :: files[i].fd
  }

  predicate OwnsFiles(files: seq<FileSlot>, open: set<nat>) {
    && HeldFiles(files) <= open
    && forall i, j :: 0 <= i < j < |files| && files[i].fd != 0 ==> files[i].fd != files[j].fd
  }

  predicate ConservesFiles(before: seq<FileSlot>, open: set<nat>, after: seq<FileSlot>, open': set<nat>) {
    && OwnsFiles(after, open')
    && open' == (open - HeldFiles(before)) + HeldFiles(after)
    && HeldFiles(after) !! (open - HeldFiles(before))
  }

  /** Atari metadata is set only on occupied slots, only in Atari mode, with a position that was reached. */
  predicate FilesOk(files: seq<FileSlot>, set_: Settings) {
    && |files| == MAX_FDS
    && forall i :: 0 <= i < |files| ==>
         files[i].meta.position >= 0 && (files[i].meta.binary ==> set_.atari && files[i].fd != 0)
  }

  lemma HeldAfter(files: seq<FileSlot>, i: nat, s: FileSlot)
    requires i < |files| && forall j, k :: 0 <= j < k < |files| && files[j].fd != 0 ==> files[j].fd != files[k].fd
    ensures HeldFiles(files[i := s]) == (HeldFiles(files) - {files[i].fd}) + (if s.fd != 0 then {s.fd} else {})
  {
    var after := files[i := s];
    assert forall j :: 0 <= j < |files| && j != i ==> after[j] == files[j];
    assert after[i] == s;
    forall x | x in HeldFiles(files) && x != files[i].fd
      ensures x in HeldFiles(after)
    {
      var j :| 0 <= j < |files| && files[j].fd != 0 && files[j].fd == x;
      assert after[j].fd == x;
    }
  }

  /** OPEN puts one new descriptor into a free slot, or changes nothing. */
  lemma OpenFileKeeps(files: seq<FileSlot>, set_: Settings, mode: OpenMode, os: OsAnswer, open: set<nat>)
    requires FilesOk(files, set_) && OwnsFiles(files, open) && (!os.failed ==> os.number !in open)
    ensures var a := OpenFile(files, set_, mode, os).files;
      FilesOk(a, set_) && ConservesFiles(files, open, a, (open - HeldFiles(files)) + HeldFiles(a))
  {
    var i := FirstFree(files, 0);
    if i < |files| && !os.failed && os.number != 0 {
      HeldAfter(files, i, OpenFile(files, set_, mode, os).files[i]);
    }
  }

  /** CLOSE gives exactly the slot's descriptor back and clears its metadata. */
  lemma CloseFileKeeps(files: seq<FileSlot>, set_: Settings, data: seq<U8>, os: OsAnswer, open: set<nat>)
    requires FilesOk(files, set_) && OwnsFiles(files, open)
    ensures var a := CloseFile(files, set_, data, os).files;
      FilesOk(a, set_) && ConservesFiles(files, open, a, (open - HeldFiles(files)) + HeldFiles(a))
  {
    var slot := SlotOf(files, data, 1);
    if slot.Some? {
      HeldAfter(files, slot.value, FileSlot(0, if set_.atari then NO_META else files[slot.value].meta));
    }
  }

  /** Commands that only move positions keep every descriptor. */
  lemma PositionsKeep(files: seq<FileSlot>, set_: Settings, data: seq<U8>, os: OsAnswer, open: set<nat>)
    requires FilesOk(files, set_) && OwnsFiles(files, open)
    ensures var a := ReadFile(files, set_, data, os).files; FilesOk(a, set_) && ConservesFiles(files, open, a, open)
    ensures var a := SeekFile(files, data, os).files; FilesOk(a, set_) && ConservesFiles(files, open, a, open)
    ensures WriteFile(files, data, os).files == files
  {
    SameFds(files, open, ReadFile(files, set_, data, os).files);
    SameFds(files, open, SeekFile(files, data, os).files);
  }

  lemma SameFds(files: seq<FileSlot>, open: set<nat>, after: seq<FileSlot>)
    requires OwnsFiles(files, open) && |after| == |files| && forall i :: 0 <= i < |files| ==> after[i].fd == files[i].fd
    ensures ConservesFiles(files, open, after, open)
  {
    assert HeldFiles(after) == HeldFiles(files);
  }

  /** No file reply outgrows the message: a READBLOCK reply, the largest, has at most 514 bytes. */
  lemma FileRepliesFit(files: seq<FileSlot>, set_: Settings, mode: OpenMode, data: seq<U8>, os: OsAnswer)
    ensures |OpenFile(files, set_, mode, os).reply.payload| <= 1
    ensures |ReadFile(files, set_, data, os).reply.payload| <= MAX_IOSZ + 2
    ensures |WriteFile(files, data, os).reply.payload| <= 2
    ensures |SeekFile(files, data, os).reply.payload| <= 4
    ensures |CloseFile(files, set_, data, os).reply.payload| == 0
  {
  }

  /** What an Atari read sends is exactly the slice of the image at the position, which moves past it; the
      image is made of the file as far as the size recorded when it was opened. */
  lemma AtariReadIsSlice(files: seq<FileSlot>, set_: Settings, data: seq<U8>, os: OsAnswer, i: nat)
    requires FilesOk(files, set_) && SlotOf(files, data, 3) == Some(i) && files[i].meta.binary
    requires Atari.Full(set_.boot, files[i].meta.size, files[i].meta.position, ReadSize(data), os.access)
    ensures var p := files[i].meta.position; var n := Atari.Wanted(p, ReadSize(data));
        var a := ReadFile(files, set_, data, os);
      var image := Atari.Image(set_.boot, Sized(os.bytes, files[i].meta.size));
      && a.files == files[i := files[i].(meta := files[i].meta.(position := p + n))]
      && (n > 0 ==> a.reply == Reply(Status.SUCCESS, Le16(n) + image[p..p + n]))
      && (n == 0 ==> a.reply == Reply(Status.EOF, []))
  {
    hide Atari.ImageByte;
    var p := files[i].meta.position;
    var n := Atari.Wanted(p, ReadSize(data));
    var file := Sized(os.bytes, files[i].meta.size);
    Atari.ReturnedBounds(set_.boot, |file|, p, ReadSize(data), os.access);
    if n > 0 {
      assert Atari.Bytes(set_.boot, file, p, n) == Atari.Image(set_.boot, file)[p..p + n];
    }
  }
}
