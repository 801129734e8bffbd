/** The virtual ATR disk image served for an Atari binary (src/atari.c): one fixed byte sequence, and
    the region-by-region read proved to return slices of it. */
module Atari {
  import opened Endian

  const HEADER_SIZE := 16
  const DATA_SIZE := 256 * 1024
  const TOTAL_SIZE := HEADER_SIZE + DATA_SIZE

  function RoundUp128(n: nat): (r: nat)
    ensures n <= r < n + 128 && r % 128 == 0
  {
    (n + 127) / 128 * 128
  }

  /** generate_atr_header: the paragraph count is the size of the data in 16-byte units. */
  const HEADER: seq<U8> := [0x96, 0x02] + Le16(DATA_SIZE / 16) + [0x80, 0, 0, 0, 0, 0, 0, 0, 0, 0, 0, 0]

  function FileStart(boot: seq<U8>): nat {
    HEADER_SIZE + RoundUp128(|boot|)
  }

  function ImageByte(boot: seq<U8>, file: seq<U8>, p: nat): U8 {
    if p < HEADER_SIZE then HEADER[p]
    else if p < HEADER_SIZE + |boot| then boot[p - HEADER_SIZE]
    else if FileStart(boot) <= p < FileStart(boot) + |file| then file[p - FileStart(boot)]
    else 0
  }

  /** The image, byte by byte. */
  function Image(boot: seq<U8>, file: seq<U8>): (s: seq<U8>)
    ensures |s| == TOTAL_SIZE
    ensures forall p :: 0 <= p < TOTAL_SIZE ==> s[p] == ImageByte(boot, file, p)
  {
    seq(TOTAL_SIZE, p requires 0 <= p < TOTAL_SIZE => ImageByte(boot, file, p))
  }

  function Zeros(n: nat): (s: seq<U8>)
    ensures |s| == n && forall i :: 0 <= i < n ==> s[i] == 0
  {
    seq(n, _ => 0)
  }

  /** The image is the header, the boot code padded to a multiple of 128, the file and zeros, cut to size. */
  lemma ImageLayout(boot: seq<U8>, file: seq<U8>)
    ensures Image(boot, file) ==
      (HEADER + (boot + Zeros(RoundUp128(|boot|) - |boot|)) + file + Zeros(TOTAL_SIZE))[..TOTAL_SIZE]
    ensures HEADER == [0x96, 0x02, 0x00, 0x40, 0x80, 0, 0, 0, 0, 0, 0, 0, 0, 0, 0, 0] && |HEADER| == HEADER_SIZE
  {
    var b := boot + Zeros(RoundUp128(|boot|) - |boot|);
    var whole := HEADER + b + file + Zeros(TOTAL_SIZE);
    assert |b| == RoundUp128(|boot|) && |HEADER + b| == FileStart(boot);
    forall p | 0 <= p < TOTAL_SIZE
      ensures whole[p] == ImageByte(boot, file, p)
    {
      if p < HEADER_SIZE {
      } else if p < FileStart(boot) {
        assert whole[p] == b[p - HEADER_SIZE];
      } else if p < FileStart(boot) + |file| {
        assert whole[p] == file[p - FileStart(boot)];
      }
    }
  }

  // ---------- What one read returns ----------

  /** How the operating system treats the one access to the real file: `Reads(n)` delivers at most n
      bytes of what is asked. */
  datatype FileAccess = SeekFails | ReadFails | Reads(most: nat)

  function Min(a: int, b: int): int { if a < b then a else b }
  function Max(a: int, b: int): int { if a < b then b else a }

  /** The bytes a read wants: up to the end of the image. */
  function Wanted(pos: nat, count: nat): nat {
    Max(0, Min(count, TOTAL_SIZE - pos))
  }

  /** Does reading `want` bytes at pos touch the file, and where does that part start and end? */
  function FilePart(boot: seq<U8>, size: nat, pos: nat, want: nat): (nat, nat) {
    (Max(pos, FileStart(boot)), Max(pos, Min(pos + want, FileStart(boot) + size)))
  }

  /** The number returned: -1 only when the very first byte wanted is in the file and reading it fails. */
  function Returned(boot: seq<U8>, size: nat, pos: nat, count: nat, access: FileAccess): int {
    var want := Wanted(pos, count);
    var (from, to) := FilePart(boot, size, pos, want);
    if from >= to then want
    else
      match access
      case SeekFails => from - pos
      case ReadFails => if from == pos then -1 else from - pos
      case Reads(most) => if most < to - from then from - pos + most else want
  }

  /** The access delivers all it is asked for. */
  predicate Full(boot: seq<U8>, size: nat, pos: nat, count: nat, access: FileAccess) {
    var (from, to) := FilePart(boot, size, pos, Wanted(pos, count));
    from < to ==> access.Reads? && access.most >= to - from
  }

  /** What a read returns never goes past what is wanted, and a full read returns all of it. */
  lemma ReturnedBounds(boot: seq<U8>, size: nat, pos: nat, count: nat, access: FileAccess)
    ensures -1 <= Returned(boot, size, pos, count, access) <= Wanted(pos, count) <= count
    ensures Full(boot, size, pos, count, access) ==> Returned(boot, size, pos, count, access) == Wanted(pos, count)
  {
  }

  // ---------- Reading in pieces ----------

  /** One read: the count asked for, and how the real file answers. */
  datatype ReadCall = ReadCall(count: nat, access: FileAccess)

  /** How many bytes a read at pos delivers; a failed one delivers none. */
  function Got(boot: seq<U8>, size: nat, pos: nat, c: ReadCall): nat {
    Max(Returned(boot, size, pos, c.count, c.access), 0)
  }

  /** n bytes of the image from pos on, as a read leaves them in the buffer. */
  function Bytes(boot: seq<U8>, file: seq<U8>, pos: nat, n: nat): (s: seq<U8>)
    ensures |s| == n && forall k :: 0 <= k < n ==> s[k] == ImageByte(boot, file, pos + k)
  {
    seq<U8>(n, k requires 0 <= k < n => ImageByte(boot, file, pos + k))
  }

  /** What a client has after these reads, whether full, short or failing. */
  function InPieces(boot: seq<U8>, file: seq<U8>, pos: nat, calls: seq<ReadCall>): seq<U8>
    decreases |calls|
  {
    if calls == [] then []
    else
      var n := Got(boot, |file|, pos, calls[0]);
      Bytes(boot, file, pos, n) + InPieces(boot, file, pos + n, calls[1..])
  }

  /** The sum of what the reads returned. */
  function TotalGot(boot: seq<U8>, size: nat, pos: nat, calls: seq<ReadCall>): nat
    decreases |calls|
  {
    if calls == [] then 0
    else
      var n := Got(boot, size, pos, calls[0]);
      n + TotalGot(boot, size, pos + n, calls[1..])
  }

  lemma BytesJoin(boot: seq<U8>, file: seq<U8>, pos: nat, m: nat, n: nat)
    ensures Bytes(boot, file, pos, m) + Bytes(boot, file, pos + m, n) == Bytes(boot, file, pos, m + n)
  {
    hide ImageByte;
    var left, right := Bytes(boot, file, pos, m) + Bytes(boot, file, pos + m, n), Bytes(boot, file, pos, m + n);
    forall k | 0 <= k < m + n
      ensures left[k] == right[k]
    {
      if k >= m {
        assert left[k] == Bytes(boot, file, pos + m, n)[k - m];
      }
    }
  }

  lemma Unfold(boot: seq<U8>, file: seq<U8>, pos: nat, calls: seq<ReadCall>)
    ensures if calls == [] then InPieces(boot, file, pos, calls) == Bytes(boot, file, pos, 0) &&
        TotalGot(boot, |file|, pos, calls) == 0
      else
        var n := Got(boot, |file|, pos, calls[0]);
        && InPieces(boot, file, pos, calls) == Bytes(boot, file, pos, n) + InPieces(boot, file, pos + n, calls[1..])
        && TotalGot(boot, |file|, pos, calls) == n + TotalGot(boot, |file|, pos + n, calls[1..])
  {
    hide Got, ImageByte;
  }

  lemma {:induction false} PiecesAreBytes(boot: seq<U8>, file: seq<U8>, pos: nat, calls: seq<ReadCall>)
    ensures InPieces(boot, file, pos, calls) == Bytes(boot, file, pos, TotalGot(boot, |file|, pos, calls))
    decreases |calls|
  {
    hide Got, Bytes, InPieces, TotalGot;
    Unfold(boot, file, pos, calls);
    if calls != [] {
      var n := Got(boot, |file|, pos, calls[0]);
      PiecesAreBytes(boot, file, pos + n, calls[1..]);
      BytesJoin(boot, file, pos, n, TotalGot(boot, |file|, pos + n, calls[1..]));
    }
  }

  lemma GotBounds(boot: seq<U8>, size: nat, pos: nat, c: ReadCall)
    ensures Got(boot, size, pos, c) <= Wanted(pos, c.count)
    ensures pos <= TOTAL_SIZE ==> pos + Wanted(pos, c.count) <= TOTAL_SIZE
    ensures Full(boot, size, pos, c.count, c.access) ==> Got(boot, size, pos, c) == Wanted(pos, c.count)
  {
    ReturnedBounds(boot, size, pos, c.count, c.access);
  }

  lemma {:induction false} TotalStaysInside(boot: seq<U8>, size: nat, pos: nat, calls: seq<ReadCall>)
    requires pos <= TOTAL_SIZE
    ensures pos + TotalGot(boot, size, pos, calls) <= TOTAL_SIZE
    decreases |calls|
  {
    hide Got, Wanted, Full;
    if calls != [] {
      GotBounds(boot, size, pos, calls[0]);
      TotalStaysInside(boot, size, pos + Got(boot, size, pos, calls[0]), calls[1..]);
    }
  }

  /** However a span is read, with short and failing reads among them, the pieces join to the image from
      the first position up to the last: no byte is lost, doubled or out of place. */
  lemma PiecesJoin(boot: seq<U8>, file: seq<U8>, pos: nat, calls: seq<ReadCall>)
    requires pos <= TOTAL_SIZE
    ensures var n := TotalGot(boot, |file|, pos, calls);
      pos + n <= TOTAL_SIZE && InPieces(boot, file, pos, calls) == Image(boot, file)[pos..pos + n]
  {
    hide InPieces, TotalGot, ImageByte;
    PiecesAreBytes(boot, file, pos, calls);
    TotalStaysInside(boot, |file|, pos, calls);
  }

  predicate AllFull(boot: seq<U8>, size: nat, pos: nat, calls: seq<ReadCall>)
    decreases |calls|
  {
    calls == []
    || (Full(boot, size, pos, calls[0].count, calls[0].access) &&
        AllFull(boot, size, pos + Got(boot, size, pos, calls[0]), calls[1..]))
  }

  function Sum(calls: seq<ReadCall>): nat {
    if calls == [] then 0 else calls[0].count + Sum(calls[1..])
  }

  lemma NextWanted(pos: nat, count: nat, rest: nat)
    requires pos <= TOTAL_SIZE
    ensures var n := Wanted(pos, count); n + Min(rest, TOTAL_SIZE - (pos + n)) == Min(count + rest, TOTAL_SIZE - pos)
  {
  }

  lemma {:induction false} FullTotal(boot: seq<U8>, size: nat, pos: nat, calls: seq<ReadCall>)
    requires pos <= TOTAL_SIZE && AllFull(boot, size, pos, calls)
    ensures TotalGot(boot, size, pos, calls) == Min(Sum(calls), TOTAL_SIZE - pos)
    decreases |calls|
  {
    hide Got, Wanted, Full;
    if calls != [] {
      GotBounds(boot, size, pos, calls[0]);
      FullTotal(boot, size, pos + Got(boot, size, pos, calls[0]), calls[1..]);
      NextWanted(pos, calls[0].count, Sum(calls[1..]));
    }
  }

  /** When all underlying reads are full, that is all that was asked for, up to the end of the image. */
  lemma FullPiecesJoin(boot: seq<U8>, file: seq<U8>, pos: nat, calls: seq<ReadCall>)
    requires pos <= TOTAL_SIZE && AllFull(boot, |file|, pos, calls)
    ensures InPieces(boot, file, pos, calls) == Image(boot, file)[pos..pos + Min(Sum(calls), TOTAL_SIZE - pos)]
  {
    hide InPieces, TotalGot, AllFull, Image;
    PiecesJoin(boot, file, pos, calls);
    FullTotal(boot, |file|, pos, calls);
  }

  // ---------- The read and the seek ----------

  /** b holds the image from pos on, in its n bytes from index at on, and is otherwise as before. */
  ghost predicate Filled(before: seq<U8>, b: seq<U8>, at: nat, boot: seq<U8>, file: seq<U8>, pos: nat, n: nat) {
    && |b| == |before| && at + n <= |b|
    && forall i :: 0 <= i < |b| ==>
        b[i] == if at <= i < at + n then ImageByte(boot, file, pos + (i - at)) else before[i]
  }

  method Copy(buf: array<U8>, at: nat, src: seq<U8>)
    requires at + |src| <= buf.Length
    modifies buf
    ensures Wrote(old(buf[..]), buf[..], at, src)
  {
    for k := 0 to |src|
      invariant forall i :: 0 <= i < buf.Length ==> buf[i] == if at <= i < at + k then src[i - at] else old(buf[i])
    {
      buf[at + k] := src[k];
    }
  }

  lemma FilledGrows(before: seq<U8>, b: seq<U8>, c: seq<U8>, at: nat, boot: seq<U8>, file: seq<U8>, pos: nat, n: nat,
      src: seq<U8>)
    requires Filled(before, b, at, boot, file, pos, n) && Wrote(b, c, at + n, src)
    requires forall k :: 0 <= k < |src| ==> src[k] == ImageByte(boot, file, pos + n + k)
    ensures Filled(before, c, at, boot, file, pos, n + |src|)
  {
    forall i | 0 <= i < |c|
      ensures c[i] == if at <= i < at + n + |src| then ImageByte(boot, file, pos + (i - at)) else before[i]
    {
      if at + n <= i < at + n + |src| {
        assert src[i - at - n] == ImageByte(boot, file, pos + n + (i - at - n));
      }
    }
  }

  lemma NothingFilled(b: seq<U8>, at: nat, boot: seq<U8>, file: seq<U8>, pos: nat)
    requires at <= |b|
    ensures Filled(b, b, at, boot, file, pos, 0)
  {
  }

  /** Where the region that contains p ends. */
  function RegionEnd(boot: seq<U8>, size: nat, p: nat): (e: nat)
    requires p < TOTAL_SIZE
    ensures p < e
  {
    if p < HEADER_SIZE then HEADER_SIZE
    else if p < FileStart(boot) then FileStart(boot)
    else if p < FileStart(boot) + size then FileStart(boot) + size
    else TOTAL_SIZE
  }

  predicate InFile(boot: seq<U8>, size: nat, p: nat) {
    FileStart(boot) <= p < FileStart(boot) + size
  }

  /** The bytes one region contributes, and whether the read must end there. */
  method Piece(boot: seq<U8>, file: seq<U8>, vpos: nat, left: nat, access: FileAccess)
      returns (src: seq<U8>, last: bool)
    requires vpos < TOTAL_SIZE && 0 < left <= TOTAL_SIZE - vpos
    ensures forall k :: 0 <= k < |src| ==> src[k] == ImageByte(boot, file, vpos + k)
    ensures var asked := Min(left, RegionEnd(boot, |file|, vpos) - vpos);
      |src| == (if !InFile(boot, |file|, vpos) then asked else if access.Reads? then Min(access.most, asked) else 0)
      && (last <==> |src| < asked)
  {
    last := false;
    var bootEnd := FileStart(boot);
    if vpos < HEADER_SIZE {
      src := HEADER[vpos..vpos + Min(left, HEADER_SIZE - vpos)];
    } else if vpos < bootEnd {
      var n := Min(left, bootEnd - vpos);
      var offset := vpos - HEADER_SIZE;
      var actual := if offset < |boot| then Min(n, |boot| - offset) else 0;
      src := (if actual > 0 then boot[offset..offset + actual] else []) + Zeros(n - actual);
    } else if vpos < bootEnd + |file| {
      var asked := Min(left, bootEnd + |file| - vpos);
      var n := if access.Reads? then Min(access.most, asked) else 0;
      src := file[vpos - bootEnd..vpos - bootEnd + n];
      last := n < asked;
    } else {
      src := Zeros(Min(left, TOTAL_SIZE - vpos));
    }
  }

  /** The Atari side of one file descriptor slot. */
  class VirtualFile {
    var isBinary: bool
    var position: int
    var realSize: nat

    constructor ()
      ensures !isBinary && position == 0 && realSize == 0
    {
      isBinary, position, realSize := false, 0, 0;
    }

    /** atari_mark_fd. */
    method Mark(size: nat)
      modifies this
      ensures isBinary && position == 0 && realSize == size
    {
      isBinary, position, realSize := true, 0, size;
    }

    /** atari_clear_fd. */
    method Clear()
      modifies this
      ensures !isBinary && position == 0 && realSize == 0
    {
      isBinary, position, realSize := false, 0, 0;
    }

    /** atari_virtual_read into buf from index at on. */
    method Read(boot: seq<U8>, file: seq<U8>, buf: array<U8>, at: nat, count: nat, access: FileAccess) returns (r: int)
      requires realSize == |file| && position >= 0 && at + count <= buf.Length
      modifies this`position, buf
      ensures r == Returned(boot, |file|, old(position), count, access)
      ensures position == old(position) + Max(r, 0)
      ensures Filled(old(buf[..]), buf[..], at, boot, file, old(position), Max(r, 0))
    {
      hide ImageByte, Image, Filled;
      NothingFilled(buf[..], at, boot, file, position);
      var vpos: nat := position;
      if vpos >= TOTAL_SIZE {
        return 0;
      }
      var left: nat, got: nat := Min(count, TOTAL_SIZE - vpos), 0;
      ghost var pos, want, before := vpos, left, buf[..];
      ghost var (from, to) := FilePart(boot, |file|, pos, want);
      while left > 0 && vpos < TOTAL_SIZE
        invariant vpos == pos + got && got + left == want
        invariant Filled(before, buf[..], at, boot, file, pos, got)
        invariant position == pos
        invariant from < to ==> vpos <= from || (vpos >= to && Full(boot, |file|, pos, count, access))
        decreases left
      {
        var src, last := Piece(boot, file, vpos, left, access);
        if access.ReadFails? && last && got == 0 {
          return -1;
        }
        ghost var b := buf[..];
        Copy(buf, at + got, src);
        FilledGrows(before, b, buf[..], at, boot, file, pos, got, src);
        vpos, got, left := vpos + |src|, got + |src|, left - |src|;
        if last {
          break;
        }
      }
      position := vpos;
      r := got;
    }

    /** atari_virtual_lseek; whence is 0 for SEEK_SET, 1 for SEEK_CUR and 2 for SEEK_END. */
    method Seek(offset: int, whence: int) returns (r: int)
      requires position >= 0
      modifies this`position
      ensures var target :=
          if whence == 0 then offset else if whence == 1 then old(position) + offset else TOTAL_SIZE + offset;
        r == (if 0 <= whence <= 2 && target >= 0 then target else -1)
      ensures position == if r >= 0 then r else old(position)
    {
      var target;
      match whence {
        case 0 => target := offset;
        case 1 => target := position + offset;
        case 2 => target := TOTAL_SIZE + offset;
        case _ => return -1;
      }
      if target < 0 {
        return -1;
      }
      position := target;
      r := target;
    }
  }
}
