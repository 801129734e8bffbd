/** One directory handle slot of a session (dir_handle in src/tnfs.h). */
module DirHandle {
  import opened CStrings
  import opened Endian
  import opened EntryOrder
  import opened DirList
  import opened Listing

  /** A slot as a value. A stream of 0 is a null DIR pointer. */
  datatype Slot = Slot(
    stream: nat, open: bool, loaded: bool, path: CString, diropt: U8, sortopt: U8, pattern: CString,
    count: U16, entries: seq<Entry>, cursor: nat, openAt: int, ignores: seq<CString>)

  /** A slot as the session's memset leaves it. */
  const EMPTY := Slot(0, false, false, [], 0, 0, [], 0, [], 0, 0, [])

  class Handle {
    var stream: nat
    var open: bool
    var loaded: bool
    var path: CString
    var diropt: U8
    var sortopt: U8
    var pattern: CString
    var entryCount: U16
    var entryList: Node?
    var currentEntry: Node?
    var openAt: int
    var ignores: seq<CString>
    ghost var nodes: seq<Node>
    ghost var cursor: nat

    /** The entry list is well linked and the current entry is the one the cursor counts to. */
    ghost predicate Valid()
      reads this, nodes
    {
      && IsList(entryList, nodes)
      && cursor <= |nodes|
      && currentEntry == if cursor < |nodes| then nodes[cursor] else null
    }

    ghost function View(): Slot
      reads this
    {
      Slot(stream, open, loaded, path, diropt, sortopt, pattern, entryCount, Entries(nodes), cursor, openAt, ignores)
    }

    constructor ()
      ensures Valid() && View() == EMPTY
    {
      stream, open, loaded, path, diropt, sortopt, pattern := 0, false, false, [], 0, 0, [];
      entryCount, entryList, currentEntry, openAt, ignores := 0, null, null, 0, [];
      nodes, cursor := [], 0;
    }

    /** current_entry = current_entry->next. */
    method Advance()
      requires Valid() && currentEntry != null
      modifies this`currentEntry, this`cursor
      ensures Valid() && cursor == old(cursor) + 1
    {
      currentEntry := currentEntry.next;
      cursor := cursor + 1;
    }

    /** dirlist_free, with the fields that go with the list. */
    method DropListing()
      modifies this`ignores, this`entryList, this`nodes, this`currentEntry, this`cursor, this`entryCount
      ensures Valid() && nodes == []
      ensures View() == old(View()).(ignores := [], entries := [], cursor := 0, count := 0)
    {
      ignores := [];
      entryList, nodes := null, [];
      currentEntry, cursor := null, 0;
      entryCount := 0;
    }

    /** The entry list is replaced and the cursor put at its start. */
    method SetListing(head: Node?, ghost ns: seq<Node>, count: U16)
      requires IsList(head, ns)
      modifies this`entryList, this`nodes, this`currentEntry, this`cursor, this`entryCount
      ensures Valid() && nodes == ns
      ensures View() == old(View()).(entries := Entries(ns), cursor := 0, count := count)
    {
      entryList, nodes := head, ns;
      currentEntry, cursor := head, 0;
      entryCount := count;
    }

    /** current_entry = entry_list. */
    method Rewind()
      requires Valid()
      modifies this`currentEntry, this`cursor
      ensures Valid() && View() == old(View()).(cursor := 0)
    {
      currentEntry, cursor := entryList, 0;
    }

    /** The assignments of _tnfs_init_dhandle. */
    method Prepare(path: CString, pattern: CString, diropt: U8, sortopt: U8, now: int)
      requires Valid()
      modifies this`path, this`pattern, this`diropt, this`sortopt, this`openAt, this`ignores
      ensures Valid()
      ensures View() == old(View()).(path := path, pattern := pattern, diropt := diropt, sortopt := sortopt,
          openAt := now, ignores := [])
    {
      hide IsList;
      this.path, this.pattern, this.diropt, this.sortopt := path, pattern, diropt, sortopt;
      openAt, ignores := now, [];
    }

    /** The slot is open with its listing; a plain listing also brings the stream and the ignore patterns. */
    method MarkLoaded(stream: nat, ignores: seq<CString>, plain: bool)
      requires Valid()
      modifies this`stream, this`ignores, this`open, this`loaded
      ensures Valid()
      ensures View() == var s := old(View()).(open := true, loaded := true);
          if plain then s.(stream := stream, ignores := ignores) else s
    {
      hide IsList;
      if plain {
        this.stream := stream;
        this.ignores := ignores;
      }
      open := true;
      loaded := true;
    }
  }
}
