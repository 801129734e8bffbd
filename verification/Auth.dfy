/** The read-only gate (src/auth.c) and the translation of open flags (src/tnfs_file.c). */
module Auth {
  import opened Endian

  const MKDIR := 0x13
  const RMDIR := 0x14
  const WRITEBLOCK := 0x22
  const UNLINKFILE := 0x26
  const CHMODFILE := 0x27
  const RENAMEFILE := 0x28

  /** The table of refused commands, ended by -1. */
  const RW_CMDS: seq<int> := [MKDIR, RMDIR, WRITEBLOCK, UNLINKFILE, CHMODFILE, RENAMEFILE, -1]

  const O_WRONLY: bv16 := 0x0002
  const O_APPEND: bv16 := 0x0008
  const O_CREAT: bv16 := 0x0100
  const O_TRUNC: bv16 := 0x0200
  const O_EXCL: bv16 := 0x0400
  const O_ACCMODE: bv16 := 0x0003
  const RW_FLAGS: bv16 := O_WRONLY | O_APPEND | O_CREAT | O_TRUNC | O_EXCL

  predicate Mutating(cmd: U8) {
    cmd in {MKDIR, RMDIR, WRITEBLOCK, UNLINKFILE, CHMODFILE, RENAMEFILE}
  }

  predicate CmdAllowed(readOnly: bool, cmd: U8) {
    !readOnly || !Mutating(cmd)
  }

  predicate OpenAllowed(readOnly: bool, flags: bv16) {
    !readOnly || flags & RW_FLAGS == 0
  }

  /** What the translated flags ask of the operating system. */
  datatype Access = ReadOnly | WriteOnly | ReadWrite
  datatype OpenMode = OpenMode(access: Access, append: bool, creat: bool, excl: bool, trunc: bool)

  const PURE_READ := OpenMode(ReadOnly, false, false, false, false)

  /** tnfs_make_mode; no access bits at all also means reading. */
  function MakeMode(flags: bv16): OpenMode {
    OpenMode(
      if flags & O_ACCMODE == 2 then WriteOnly else if flags & O_ACCMODE == 3 then ReadWrite else ReadOnly,
      flags & O_APPEND != 0, flags & O_CREAT != 0, flags & O_EXCL != 0, flags & O_TRUNC != 0)
  }

  function Flags(lo: bv8, hi: bv8): bv16 {
    (lo as bv16) | ((hi as bv16) << 8)
  }

  /** The flags as a request has them, low byte first. */
  function FlagsOf(lo: U8, hi: U8): bv16 {
    Flags(lo as bv8, hi as bv8)
  }

  /** In read-only mode an open passes the flag test exactly when it maps to a pure read. */
  lemma ReadOnlyOpensArePureReads(flags: bv16)
    ensures OpenAllowed(true, flags) <==> MakeMode(flags) == PURE_READ
  {
    AccessBits(flags);
  }

  lemma AccessBits(flags: bv16)
    ensures flags & RW_FLAGS == 0 <==>
      flags & O_ACCMODE != 2 && flags & O_ACCMODE != 3
      && flags & O_APPEND == 0 && flags & O_CREAT == 0 && flags & O_EXCL == 0 && flags & O_TRUNC == 0
  {
  }

  /** What the bits of the flags mean: 1 and 2 to read and to write, none of them to read. */
  lemma ModeMeans(flags: bv16)
    ensures var m := MakeMode(flags);
      && (m.access != WriteOnly <==> flags & 1 != 0 || flags & 2 == 0) && (m.access != ReadOnly <==> flags & 2 != 0)
      && (m.append <==> flags & 0x8 != 0) && (m.creat <==> flags & 0x100 != 0)
      && (m.trunc <==> flags & 0x200 != 0) && (m.excl <==> flags & 0x400 != 0)
  {
    AccessIsTwoBits(flags);
  }

  lemma AccessIsTwoBits(flags: bv16)
    ensures flags & O_ACCMODE == 2 <==> flags & 1 == 0 && flags & 2 != 0
    ensures flags & O_ACCMODE == 3 <==> flags & 1 != 0 && flags & 2 != 0
  {
  }

  /** The low byte of the flags comes first. */
  lemma FlagBytes(lo: bv8, hi: bv8)
    ensures Flags(lo, hi) & 0xFF == lo as bv16 && Flags(lo, hi) >> 8 == hi as bv16
    ensures FlagsOf(lo as int, hi as int) == Flags(lo, hi)
  {
  }

  class Gate {
    var readOnly: bool

    constructor (readOnly: bool)
      ensures this.readOnly == readOnly
    {
      this.readOnly := readOnly;
    }

    /** is_cmd_allowed: a scan of the table. */
    method IsCmdAllowed(cmd: U8) returns (allowed: bool)
      ensures allowed <==> CmdAllowed(readOnly, cmd)
    {
      if !readOnly {
        return true;
      }
      var i := 0;
      while RW_CMDS[i] != -1
        invariant 0 <= i <= 6 && forall k :: 0 <= k < i ==> RW_CMDS[k] != cmd
        decreases 6 - i
      {
        if RW_CMDS[i] == cmd {
          assert i == 0 || i == 1 || i == 2 || i == 3 || i == 4 || i == 5;
          return false;
        }
        i := i + 1;
      }
      assert i == 6;
      assert RW_CMDS[0] != cmd && RW_CMDS[1] != cmd && RW_CMDS[2] != cmd && RW_CMDS[3] != cmd && RW_CMDS[4] != cmd &&
          RW_CMDS[5] != cmd;
      allowed := true;
    }
  }
}
