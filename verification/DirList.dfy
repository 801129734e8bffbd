/** The singly linked list of directory entries (src/directory.c), relinked in place. */
module DirList {
  import opened Endian
  import opened EntryOrder

  class Node {
    const entry: Entry
    var next: Node?

    constructor (entry: Entry)
      ensures this.entry == entry && next == null
    {
      this.entry := entry;
      next := null;
    }
  }

  /** The nodes reached from head, in order, are exactly ns. */
  ghost predicate IsList(head: Node?, ns: seq<Node>)
    reads ns
  {
    && head == (if ns == [] then null else ns[0])
    && (forall i, j :: 0 <= i < j < |ns| ==> ns[i] != ns[j])
    && (forall i {:trigger ns[i].next} :: 0 <= i < |ns| ==> ns[i].next == if i + 1 < |ns| then ns[i + 1] else null)
  }

  ghost predicate Apart(a: seq<Node>, b: seq<Node>) {
    forall i, j :: 0 <= i < |a| && 0 <= j < |b| ==> a[i] != b[j]
  }

  function Entries(ns: seq<Node>): (es: seq<Entry>)
    ensures |es| == |ns| && forall i :: 0 <= i < |ns| ==> es[i] == ns[i].entry
  {
    seq(|ns|, i requires 0 <= i < |ns| => ns[i].entry)
  }

  /** The merge on nodes; the nodes themselves do not change, only their order. */
  function MergeNodes(l: seq<Node>, r: seq<Node>, opts: SortOpts): seq<Node>
    decreases |l| + |r|
  {
    if l == [] then r
    else if r == [] then l
    else if Before(l[0].entry, r[0].entry, opts) then [l[0]] + MergeNodes(l[1..], r, opts)
    else [r[0]] + MergeNodes(l, r[1..], opts)
  }

  function SortNodes(ns: seq<Node>, opts: SortOpts): seq<Node> {
    if |ns| <= 1 then ns
    else
      var mid := (|ns| + 1) / 2;
      MergeNodes(SortNodes(ns[..mid], opts), SortNodes(ns[mid..], opts), opts)
  }

  lemma EntriesCons(n: Node, ns: seq<Node>)
    ensures Entries([n] + ns) == [n.entry] + Entries(ns)
  {
  }

  lemma {:induction false} MergeNodesEntries(l: seq<Node>, r: seq<Node>, opts: SortOpts)
    ensures Entries(MergeNodes(l, r, opts)) == Merge(Entries(l), Entries(r), opts)
    decreases |l| + |r|
  {
    if l == [] || r == [] {
    } else if Before(l[0].entry, r[0].entry, opts) {
      MergeNodesEntries(l[1..], r, opts);
      EntriesCons(l[0], MergeNodes(l[1..], r, opts));
      assert Entries(l)[1..] == Entries(l[1..]);
    } else {
      MergeNodesEntries(l, r[1..], opts);
      EntriesCons(r[0], MergeNodes(l, r[1..], opts));
      assert Entries(r)[1..] == Entries(r[1..]);
    }
  }

  lemma {:induction false} MergeNodesSame(l: seq<Node>, r: seq<Node>, opts: SortOpts)
    ensures multiset(MergeNodes(l, r, opts)) == multiset(l) + multiset(r)
    decreases |l| + |r|
  {
    if l != [] && r != [] {
      var m := MergeNodes(l, r, opts);
      HeadMultiset(m);
      if Before(l[0].entry, r[0].entry, opts) {
        MergeNodesSame(l[1..], r, opts);
        HeadMultiset(l);
        assert m[1..] == MergeNodes(l[1..], r, opts);
      } else {
        MergeNodesSame(l, r[1..], opts);
        HeadMultiset(r);
        assert m[1..] == MergeNodes(l, r[1..], opts);
      }
    }
  }

  lemma {:induction false} SortNodesEntries(ns: seq<Node>, opts: SortOpts)
    ensures Entries(SortNodes(ns, opts)) == MergeSort(Entries(ns), opts)
    decreases |ns|
  {
    if |ns| > 1 {
      var mid := (|ns| + 1) / 2;
      SortNodesEntries(ns[..mid], opts);
      SortNodesEntries(ns[mid..], opts);
      MergeNodesEntries(SortNodes(ns[..mid], opts), SortNodes(ns[mid..], opts), opts);
      EntriesSplit(ns, mid);
    }
  }

  lemma {:induction false} SortNodesSame(ns: seq<Node>, opts: SortOpts)
    ensures multiset(SortNodes(ns, opts)) == multiset(ns)
    decreases |ns|
  {
    if |ns| > 1 {
      var mid := (|ns| + 1) / 2;
      SortNodesSame(ns[..mid], opts);
      SortNodesSame(ns[mid..], opts);
      MergeNodesSame(SortNodes(ns[..mid], opts), SortNodes(ns[mid..], opts), opts);
      HalvesMultiset(ns, mid);
    }
  }

  lemma {:induction false} EntriesSplit(ns: seq<Node>, mid: nat)
    requires mid <= |ns|
    ensures Entries(ns)[..mid] == Entries(ns[..mid]) && Entries(ns)[mid..] == Entries(ns[mid..])
  {
    if mid > 0 {
      EntriesSplit(ns[1..], mid - 1);
      assert ns[..mid][1..] == ns[1..][..mid - 1] && ns[1..][mid - 1..] == ns[mid..];
    } else {
      assert ns[mid..] == ns;
    }
  }

  lemma SortKeepsNodes(ns: seq<Node>, opts: SortOpts)
    ensures AllIn(SortNodes(ns, opts), ns)
  {
    SortNodesSame(ns, opts);
    SameNodes(SortNodes(ns, opts), ns);
  }

  lemma SortKeepsApart(a: seq<Node>, b: seq<Node>, opts: SortOpts)
    requires Apart(a, b)
    ensures Apart(SortNodes(a, opts), b) && Apart(SortNodes(a, opts), SortNodes(b, opts))
  {
    SortKeepsNodes(a, opts);
    SortKeepsNodes(b, opts);
  }

  lemma TailIsList(head: Node, ns: seq<Node>)
    requires IsList(head, ns)
    ensures IsList(head.next, ns[1..]) && head !in ns[1..]
  {
  }

  ghost predicate AllIn(a: seq<Node>, b: seq<Node>) {
    forall i :: 0 <= i < |a| ==> a[i] in b
  }

  lemma SameNodes(a: seq<Node>, b: seq<Node>)
    requires multiset(a) == multiset(b)
    ensures AllIn(a, b) && AllIn(b, a)
  {
    forall i | 0 <= i < |a| ensures a[i] in b { assert a[i] in multiset(a); }
    forall i | 0 <= i < |b| ensures b[i] in a { assert b[i] in multiset(b); }
  }

  /** A directory filled by pushing to the front comes out of the sort in the stable order of its
      enumeration: equal keys keep the order in which the entries were read. */
  lemma PushThenSortIsStable(ns: seq<Node>, enumerated: seq<Entry>, opts: SortOpts, u: set<Entry>)
    requires Entries(ns) == Reversed(enumerated)
    requires AllClose(u, opts) && Within(enumerated, u)
    ensures Entries(SortNodes(ns, opts)) == StableSort(enumerated, opts)
  {
    SortNodesEntries(ns, opts);
    ReversedWithin(enumerated, u);
    MergeSortIsStableOnReversed(Entries(ns), opts, u);
    ReversedTwice(enumerated);
  }

  // ---------- The operations on links ----------

  method Push(head: Node?, ghost ns: seq<Node>, node: Node) returns (newHead: Node)
    requires IsList(head, ns) && node !in ns
    modifies node
    ensures IsList(newHead, [node] + ns)
  {
    node.next := head;
    newHead := node;
  }

  /** dirlist_concat. */
  method Concat(list1: Node?, ghost ns1: seq<Node>, list2: Node?, ghost ns2: seq<Node>) returns (head: Node?)
    requires IsList(list1, ns1) && IsList(list2, ns2) && Apart(ns1, ns2)
    modifies ns1
    ensures IsList(head, ns1 + ns2)
  {
    if list1 == null {
      return list2;
    }
    var pEnd: Node := list1;
    ghost var at := 0;
    while pEnd.next != null
      invariant 0 <= at < |ns1| && pEnd == ns1[at]
      decreases |ns1| - at
    {
      pEnd := pEnd.next;
      at := at + 1;
    }
    pEnd.next := list2;
    head := list1;
  }

  /** dirlist_get_node_at_index: the list from that index on, or nothing past the end. */
  method GetNodeAtIndex(dlist: Node?, ghost ns: seq<Node>, index: U32) returns (node: Node?)
    requires IsList(dlist, ns)
    ensures node == if index < |ns| then ns[index] else null
  {
    node := dlist;
    var i := 0;
    while node != null && i < index
      invariant 0 <= i <= index
      invariant i <= |ns| && node == if i < |ns| then ns[i] else null
    {
      i := i + 1;
      node := node.next;
    }
  }

  /** dirlist_get_index_for_node: the length of the list when the node is not on it. The counter is
      32 bits wide, which the list's length is required to fit. */
  method GetIndexForNode(dlist: Node?, ghost ns: seq<Node>, node: Node?) returns (i: U32)
    requires IsList(dlist, ns) && |ns| < TWO_32
    ensures i <= |ns|
    ensures i < |ns| ==> node == ns[i]
    ensures i == |ns| ==> node !in ns
  {
    var p := dlist;
    i := 0;
    while p != null && p != node
      invariant 0 <= i <= |ns| && p == if i < |ns| then ns[i] else null
      invariant node !in ns[..i]
      decreases |ns| - i
    {
      p := p.next;
      i := i + 1;
    }
  }

  // ---------- The in-place merge sort ----------

  method MergeInPlace(left: Node?, ghost ls: seq<Node>, right: Node?, ghost rs: seq<Node>, opts: SortOpts)
      returns (result: Node?)
    requires IsList(left, ls) && IsList(right, rs) && Apart(ls, rs)
    modifies ls, rs
    ensures IsList(result, MergeNodes(ls, rs, opts))
    decreases |ls| + |rs|
  {
    if left == null {
      return right;
    }
    if right == null {
      return left;
    }
    if Before(left.entry, right.entry, opts) {
      TailIsList(left, ls);
      var tail := MergeInPlace(left.next, ls[1..], right, rs, opts);
      MergeNodesSame(ls[1..], rs, opts);
      SameNodes(MergeNodes(ls[1..], rs, opts), ls[1..] + rs);
      result := Push(tail, MergeNodes(ls[1..], rs, opts), left);
    } else {
      TailIsList(right, rs);
      var tail := MergeInPlace(left, ls, right.next, rs[1..], opts);
      MergeNodesSame(ls, rs[1..], opts);
      SameNodes(MergeNodes(ls, rs[1..], opts), ls + rs[1..]);
      result := Push(tail, MergeNodes(ls, rs[1..], opts), right);
    }
  }

  /** The last node of the left half. */
  method GetMiddle(head: Node, ghost ns: seq<Node>) returns (slow: Node)
    requires IsList(head, ns)
    ensures slow == ns[(|ns| - 1) / 2]
  {
    slow := head;
    var fast := head;
    ghost var at := 0;
    while fast.next != null && fast.next.next != null
      invariant 0 <= 2 * at < |ns| && slow == ns[at] && fast == ns[2 * at]
      decreases |ns| - at
    {
      slow := slow.next;
      fast := fast.next.next;
      at := at + 1;
    }
  }

  /** Ends the left half at its last node and returns the right half. */
  method Cut(head: Node, ghost ns: seq<Node>, middle: Node, ghost mid: nat) returns (right: Node?)
    requires IsList(head, ns) && 0 < mid <= |ns| && middle == ns[mid - 1]
    modifies middle
    ensures IsList(head, ns[..mid]) && IsList(right, ns[mid..])
  {
    right := middle.next;
    middle.next := null;
  }

  method SortInPlace(head: Node?, ghost ns: seq<Node>, opts: SortOpts) returns (newHead: Node?)
    requires IsList(head, ns)
    modifies ns
    ensures IsList(newHead, SortNodes(ns, opts))
    decreases |ns|
  {
    if head == null || head.next == null {
      return head;
    }
    ghost var mid := (|ns| + 1) / 2;
    ghost var ls, rs := ns[..mid], ns[mid..];
    var middle := GetMiddle(head, ns);
    var right := Cut(head, ns, middle, mid);
    assert Apart(ls, rs);
    SortKeepsApart(ls, rs, opts);
    var sortedLeft := SortInPlace(head, ls, opts);
    var sortedRight := SortInPlace(right, rs, opts);
    SortKeepsNodes(ls, opts);
    SortKeepsNodes(rs, opts);
    newHead := MergeInPlace(sortedLeft, SortNodes(ls, opts), sortedRight, SortNodes(rs, opts), opts);
  }
}
