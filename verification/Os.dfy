/** The descriptors the operating system holds open for the server. */
module Os {
  /** Open directory streams and open files, by number; neither uses 0. */
  class System {
    var dirs: set<nat>
    var files: set<nat>

    constructor ()
      ensures dirs == {} && files == {}
    {
      dirs, files := {}, {};
    }

    /** closedir: only an open stream may be closed, so none is closed twice. */
    method CloseDir(stream: nat)
      requires stream in dirs
      modifies this`dirs
      ensures dirs == old(dirs) - {stream}
    {
      dirs := dirs - {stream};
    }

    /** opendir returned a stream that was not open. */
    method OpenedDir(stream: nat)
      requires stream != 0 && stream !in dirs
      modifies this`dirs
      ensures dirs == old(dirs) + {stream}
    {
      dirs := dirs + {stream};
    }

    method CloseFile(fd: nat)
      requires fd in files
      modifies this`files
      ensures files == old(files) - {fd}
    {
      files := files - {fd};
    }

    method OpenedFile(fd: nat)
      requires fd != 0 && fd !in files
      modifies this`files
      ensures files == old(files) + {fd}
    {
      files := files + {fd};
    }
  }
}
