/** The session table (src/session.c): lookup, allocation and recycling of session IDs, expiry, mounting
    and unmounting, on values, and what holds of it in every reachable state. */
module Sessions {
  import opened CStrings
  import opened Endian
  import opened Listing
  import opened DirHandle
  import opened Handles
  import opened FileCommands
  import opened Commands
  import opened Protocol
  import Paths

  const MAX_SESSIONS := 4096
  const MAX_PER_IP := 16
  const SESSION_TIMEOUT := 600

  /** A session with its client: address, time of the last request, TCP descriptor (0 for none). */
  datatype Client = Client(session: Session, ip: U32, contact: int, fd: nat)

  type Slist = seq<Option<Client>>

  // ---------- Lookup ----------

  predicate Has(t: Slist, i: nat, sid: U16) {
    i < |t| && t[i].Some? && t[i].value.session.sid == sid
  }

  /** The first entry from i on with this session ID, or the size of the table. */
  function FindSid(t: Slist, sid: U16, i: nat): (r: nat)
    requires i <= |t|
    ensures i <= r <= |t|
    ensures r < |t| ==> Has(t, r, sid)
    ensures forall k :: i <= k < r ==> !Has(t, k, sid)
    decreases |t| - i
  {
    if i == |t| || Has(t, i, sid) then i else FindSid(t, sid, i + 1)
  }

  function FreeIndex(t: Slist, i: nat): (r: nat)
    requires i <= |t|
    ensures i <= r <= |t|
    ensures r < |t| ==> t[r].None?
    ensures forall k :: i <= k < r ==> t[k].Some?
    decreases |t| - i
  {
    if i == |t| || t[i].None? then i else FreeIndex(t, i + 1)
  }

  /** tnfs_session_expired: only a session without a TCP connection can expire. */
  predicate Expired(c: Client, now: int) {
    now - c.contact >= SESSION_TIMEOUT && c.fd == 0
  }

  /** Entry i is an unexpired session of this address. */
  predicate Counts(t: Slist, i: nat, ip: U32, now: int) {
    i < |t| && t[i].Some? && !Expired(t[i].value, now) && t[i].value.ip == ip
  }

  function FirstCounting(t: Slist, ip: U32, now: int, i: nat): (r: nat)
    requires i <= |t|
    ensures i <= r <= |t|
    ensures r < |t| ==> Counts(t, r, ip, now)
    ensures forall k :: i <= k < r ==> !Counts(t, k, ip, now)
    decreases |t| - i
  {
    if i == |t| || Counts(t, i, ip, now) then i else FirstCounting(t, ip, now, i + 1)
  }

  /** How many of the first n entries count. */
  function Before(t: Slist, ip: U32, now: int, n: nat): nat {
    if n == 0 then 0 else Before(t, ip, now, n - 1) + (if Counts(t, n - 1, ip, now) then 1 else 0)
  }

  /** The first entry from i on that is the sixteenth to count, or the size of the table. */
  function Sixteenth(t: Slist, ip: U32, now: int, i: nat): (r: nat)
    requires i <= |t|
    ensures i <= r <= |t|
    ensures r < |t| ==> Counts(t, r, ip, now) && Before(t, ip, now, r) == MAX_PER_IP - 1
    decreases |t| - i
  {
    if i == |t| || (Counts(t, i, ip, now) && Before(t, ip, now, i) == MAX_PER_IP - 1) then i
        else Sixteenth(t, ip, now, i + 1)
  }

  function WithoutExpired(t: Slist, now: int, n: nat): (r: Slist)
    ensures |r| == |t| && forall i :: 0 <= i < |t| ==>
        r[i] == if i < n && t[i].Some? && Expired(t[i].value, now) then None else t[i]
  {
    seq(|t|, i requires 0 <= i < |t| => if i < n && t[i].Some? && Expired(t[i].value, now) then None else t[i])
  }

  datatype Lookup = Lookup(table: Slist, index: nat)

  /** tnfs_findsession_ipaddr: expired sessions are freed up to where the search stops; an index within the
      table names the session to recycle. */
  function FindIp(t: Slist, ip: U32, now: int): Lookup {
    var cut := Sixteenth(t, ip, now, 0);
    Lookup(WithoutExpired(t, now, cut), if cut < |t| then FirstCounting(t, ip, now, 0) else |t|)
  }

  // ---------- Operations ----------

  /** tnfs_newsid: the first number drawn that no session has; 0 if all are taken. */
  function NewSid(t: Slist, draws: seq<U16>): (sid: U16)
    ensures sid != 0 ==> FindSid(t, sid, 0) == |t|
  {
    if draws == [] then 0 else if FindSid(t, draws[0], 0) == |t| then draws[0] else NewSid(t, draws[1..])
  }

  /** What a MOUNT meets: the time, the numbers the generator yields, the served root, whether the path is a
      directory, and what the receive buffer holds behind the datagram. */
  datatype MountEnv = MountEnv(now: int, draws: seq<U16>, served: CString, dirOk: bool, status: U8, beyond: CString)

  /** The requested root, "/" if none is given. */
  function MountRoot(data: seq<U8>, beyond: CString): CString {
    var name := if |data| >= 3 then Paths.NameIn(data[2..]) else beyond;
    if name == [] then ['/'] else name
  }

  function NewState(root: CString): State {
    State(root, seq(MAX_HANDLES, _ => EMPTY), seq(MAX_FDS, _ => FileSlot(0, NO_META)), [])
  }

  /** The table once old sessions were freed, the table in the end, and the datagrams sent. */
  datatype Mounted = Mounted(rest: Slist, table: Slist, sent: seq<seq<U8>>)

  /** tnfs_mount. A request of no bytes passes the test for its last byte, which is then the command's. */
  function Mount(t: Slist, seqno: U8, data: seq<U8>, ip: U32, fd: nat, env: MountEnv): Mounted {
    if data != [] && data[|data| - 1] != 0 then Mounted(t, t, [])
    else
      var found := FindIp(t, ip, env.now);
      var recycled := found.index < |t|;
      var rest := if recycled then found.table[found.index := None] else found.table;
      var sid := if recycled && found.table[found.index].Some? && found.table[found.index].value.session.sid > 0
                 then found.table[found.index].value.session.sid else NewSid(rest, env.draws);
      Admit(rest, sid, seqno, MountRoot(data, env.beyond), ip, fd, env)
  }

  /** tnfs_allocsession and the rest of tnfs_mount. */
  function Admit(t: Slist, sid: U16, seqno: U8, root: CString, ip: U32, fd: nat, env: MountEnv): Mounted {
    var i := FreeIndex(t, 0);
    if i == |t| || sid == 0 then Mounted(t, t, [])
    else if env.dirOk && Paths.RootChecked(env.served, root) then
      var m := Message(sid, seqno, 0, 0, [3, 1, 0xE8, 3]);
      Mounted(t, t[i := Some(Client(Session(sid, NewState(root), m, seqno), ip, env.now, fd))], [m])
    else Mounted(t, t, [Message(0, seqno, 0, env.status, [3, 1])])
  }

  /** tnfs_reset_cli_fd_in_sessions, for each of some descriptors. */
  function Unbound(t: Slist, fds: set<nat>): (r: Slist)
    ensures |r| == |t| && forall i :: 0 <= i < |t| ==>
        r[i] == if t[i].Some? && t[i].value.fd in fds then Some(t[i].value.(fd := 0)) else t[i]
  {
    seq(|t|, i requires 0 <= i < |t| => if t[i].Some? && t[i].value.fd in fds then Some(t[i].value.(fd := 0)) else t[i])
  }

  // ---------- Session IDs ----------

  /** Session IDs are distinct and not zero. */
  predicate Distinct(t: Slist) {
    && (forall i :: 0 <= i < |t| && t[i].Some? ==> t[i].value.session.sid != 0)
    && forall i, j :: 0 <= i < j < |t| && t[i].Some? && t[j].Some? ==> t[i].value.session.sid != t[j].value.session.sid
  }

  /** No session has this ID. */
  predicate Unclaimed(t: Slist, sid: U16) {
    forall k :: 0 <= k < |t| ==> !Has(t, k, sid)
  }

  /** At most one session answers to an ID, and lookup finds it. */
  lemma LookupIsUnique(t: Slist, sid: U16, i: nat)
    requires Distinct(t) && Has(t, i, sid)
    ensures FindSid(t, sid, 0) == i
  {
    var r := FindSid(t, sid, 0);
    assert r <= i;
  }

  // ---------- Sessions of one address ----------

  function CountIp(t: Slist, ip: U32, n: nat): nat
    requires n <= |t|
  {
    if n == 0 then 0 else CountIp(t, ip, n - 1) + (if t[n - 1].Some? && t[n - 1].value.ip == ip then 1 else 0)
  }

  predicate FewPerIp(t: Slist) {
    forall ip: U32 :: CountIp(t, ip, |t|) <= MAX_PER_IP
  }

  function One(e: Option<Client>, ip: U32): nat {
    if e.Some? && e.value.ip == ip then 1 else 0
  }

  lemma {:induction false} CountUpdate(t: Slist, ip: U32, i: nat, e: Option<Client>, n: nat)
    requires i < |t| && n <= |t|
    ensures CountIp(t[i := e], ip, n) == CountIp(t, ip, n) + if i < n then One(e, ip) - One(t[i], ip) else 0
  {
    if n > 0 {
      CountUpdate(t, ip, i, e, n - 1);
    }
  }

  lemma {:induction false} CountFewer(t: Slist, u: Slist, ip: U32, n: nat)
    requires |t| == |u| && n <= |t| && forall i :: 0 <= i < n ==> One(u[i], ip) <= One(t[i], ip)
    ensures CountIp(u, ip, n) <= CountIp(t, ip, n)
  {
    if n > 0 {
      CountFewer(t, u, ip, n - 1);
      assert One(u[n - 1], ip) <= One(t[n - 1], ip);
    }
  }

  /** A search that ran through the table met at most fifteen sessions of the address. */
  lemma {:induction false} FewWhenNotFound(t: Slist, ip: U32, now: int, n: nat)
    requires n <= |t| && Sixteenth(t, ip, now, 0) == |t|
    ensures Before(t, ip, now, n) < MAX_PER_IP
  {
    if n > 0 {
      FewWhenNotFound(t, ip, now, n - 1);
      NotSixteenth(t, ip, now, 0, n - 1);
    }
  }

  lemma {:induction false} NotSixteenth(t: Slist, ip: U32, now: int, i: nat, k: nat)
    requires i <= k < |t| && Sixteenth(t, ip, now, i) == |t|
    ensures !(Counts(t, k, ip, now) && Before(t, ip, now, k) == MAX_PER_IP - 1)
    decreases |t| - i
  {
    if i < k {
      NotSixteenth(t, ip, now, i + 1, k);
    }
  }

  lemma {:induction false} SweptCount(t: Slist, ip: U32, now: int, n: nat)
    requires n <= |t|
    ensures CountIp(WithoutExpired(t, now, |t|), ip, n) == Before(t, ip, now, n)
  {
    if n > 0 {
      SweptCount(t, ip, now, n - 1);
    }
  }

  lemma FirstBeforeSixteenth(t: Slist, ip: U32, now: int)
    requires Sixteenth(t, ip, now, 0) < |t|
    ensures FirstCounting(t, ip, now, 0) <= Sixteenth(t, ip, now, 0)
  {
  }

  /** The search returns a session exactly when sixteen of the address are alive, and then the first. */
  lemma SearchFindsFullAddress(t: Slist, ip: U32, now: int)
    ensures FindIp(t, ip, now).index < |t| <==> Before(t, ip, now, |t|) >= 16
    ensures var f := FindIp(t, ip, now);
      f.index < |t| ==> (f.table[f.index] == t[f.index] && Counts(t, f.index, ip, now)
                         && forall k :: 0 <= k < f.index ==> !Counts(t, k, ip, now))
  {
    var cut := Sixteenth(t, ip, now, 0);
    if cut == |t| {
      FewWhenNotFound(t, ip, now, |t|);
    } else {
      FirstBeforeSixteenth(t, ip, now);
      BeforeGrows(t, ip, now, cut + 1, |t|);
    }
  }

  lemma {:induction false} BeforeGrows(t: Slist, ip: U32, now: int, m: nat, n: nat)
    requires m <= n
    ensures Before(t, ip, now, m) <= Before(t, ip, now, n)
    decreases n
  {
    if m < n {
      BeforeGrows(t, ip, now, m, n - 1);
    }
  }

  /** Once the searched-for session is freed, at most fifteen of the address are left. */
  lemma RoomForOne(t: Slist, ip: U32, now: int)
    requires FewPerIp(t)
    ensures var f := FindIp(t, ip, now);
      var rest := if f.index < |t| then f.table[f.index := None] else f.table;
      FewPerIp(rest) && CountIp(rest, ip, |rest|) < MAX_PER_IP
  {
    SearchFindsFullAddress(t, ip, now);
    var f := FindIp(t, ip, now);
    var rest := if f.index < |t| then f.table[f.index := None] else f.table;
    forall a: U32
      ensures CountIp(rest, a, |rest|) <= CountIp(f.table, a, |t|) <= CountIp(t, a, |t|)
    {
      CountFewer(t, f.table, a, |t|);
      if f.index < |t| {
        CountUpdate(f.table, a, f.index, None, |t|);
      }
    }
    if f.index < |t| {
      CountUpdate(f.table, ip, f.index, None, |t|);
    } else {
      FewWhenNotFound(t, ip, now, |t|);
      SweptCount(t, ip, now, |t|);
    }
  }

  lemma AddOne(t: Slist, i: nat, c: Client)
    requires FewPerIp(t) && i < |t| && t[i].None? && CountIp(t, c.ip, |t|) < MAX_PER_IP
    ensures FewPerIp(t[i := Some(c)])
  {
    var u := t[i := Some(c)];
    forall a: U32
      ensures CountIp(u, a, |u|) <= MAX_PER_IP
    {
      CountUpdate(t, a, i, Some(c), |t|);
    }
  }

  /** Tables whose sessions are those of t, or fewer, at the same places and addresses. */
  predicate Thinner(t: Slist, u: Slist) {
    |u| == |t| && forall i :: 0 <= i < |t| && u[i].Some? ==>
        t[i].Some? && u[i].value.session.sid == t[i].value.session.sid && u[i].value.ip == t[i].value.ip
  }

  lemma ThinnerKeeps(t: Slist, u: Slist)
    requires Thinner(t, u) && Distinct(t) && FewPerIp(t)
    ensures Distinct(u) && FewPerIp(u)
  {
    forall a: U32
      ensures CountIp(u, a, |u|) <= MAX_PER_IP
    {
      CountFewer(t, u, a, |t|);
      assert CountIp(t, a, |t|) <= MAX_PER_IP;
    }
  }

  lemma AdmitKeepsIds(t: Slist, sid: U16, seqno: U8, root: CString, ip: U32, fd: nat, env: MountEnv)
    requires Distinct(t) && FewPerIp(t) && CountIp(t, ip, |t|) < MAX_PER_IP
    requires Unclaimed(t, sid)
    ensures var u := Admit(t, sid, seqno, root, ip, fd, env).table; |u| == |t| && Distinct(u) && FewPerIp(u)
  {
    hide NewState, Message, CountIp, FewPerIp, Paths.RootChecked;
    var i := FreeIndex(t, 0);
    if i < |t| && sid != 0 && env.dirOk && Paths.RootChecked(env.served, root) {
      var c := Admit(t, sid, seqno, root, ip, fd, env).table[i].value;
      AddOne(t, i, c);
      assert forall k :: 0 <= k < |t| && t[k].Some? ==> !Has(t, k, sid);
    }
  }

  lemma NoneAdmitted(t: Slist, seqno: U8, root: CString, ip: U32, fd: nat, env: MountEnv)
    ensures Admit(t, 0, seqno, root, ip, fd, env).table == t
  {
  }

  /** The ID a mount uses is free: recycled from the session just freed, or drawn anew. */
  lemma MountSidIsFree(t: Slist, ip: U32, now: int, draws: seq<U16>)
    requires Distinct(t)
    ensures var f := FindIp(t, ip, now);
      && (f.index < |t| ==> f.table[f.index].Some? && f.table[f.index].value.session.sid > 0
                            && Unclaimed(f.table[f.index := None], f.table[f.index].value.session.sid))
      && (f.index == |t| && NewSid(f.table, draws) != 0 ==> Unclaimed(f.table, NewSid(f.table, draws)))
  {
    SearchFindsFullAddress(t, ip, now);
  }

  /** MOUNT keeps session IDs distinct and no address above sixteen sessions, whether it recycles an ID,
      draws a new one, or fails. */
  lemma MountKeepsIds(t: Slist, seqno: U8, data: seq<U8>, ip: U32, fd: nat, env: MountEnv)
    requires Distinct(t) && FewPerIp(t)
    ensures var u := Mount(t, seqno, data, ip, fd, env).table; |u| == |t| && Distinct(u) && FewPerIp(u)
  {
    hide FindIp, MountRoot, Admit, Distinct, FewPerIp, NewSid;
    if data == [] || data[|data| - 1] == 0 {
      var f := FindIp(t, ip, env.now);
      SearchFindsFullAddress(t, ip, env.now);
      RoomForOne(t, ip, env.now);
      MountSidIsFree(t, ip, env.now, env.draws);
      RestIsThinner(t, ip, env.now);
      var rest := if f.index < |t| then f.table[f.index := None] else f.table;
      ThinnerKeeps(t, rest);
      var sid := if f.index < |t| then f.table[f.index].value.session.sid else NewSid(rest, env.draws);
      if sid == 0 {
        NoneAdmitted(rest, seqno, MountRoot(data, env.beyond), ip, fd, env);
      } else {
        AdmitKeepsIds(rest, sid, seqno, MountRoot(data, env.beyond), ip, fd, env);
      }
    }
  }

  lemma RestIsThinner(t: Slist, ip: U32, now: int)
    ensures var f := FindIp(t, ip, now);
      |f.table| == |t| && f.index <= |t| && Thinner(t, if f.index < |t| then f.table[f.index := None] else f.table)
  {
  }

  /** A MOUNT is never taken for a retry: while fewer than sixteen sessions of the address are alive, every
      one that succeeds, a repeated one too, adds a session. */
  lemma MountAddsSession(t: Slist, seqno: U8, data: seq<U8>, ip: U32, fd: nat, env: MountEnv)
    requires FindIp(t, ip, env.now).index == |t|
    ensures var m := Mount(t, seqno, data, ip, fd, env);
      m.table != m.rest ==> |m.table| == |t| && CountIp(m.table, ip, |t|) == Before(t, ip, env.now, |t|) + 1
  {
    hide MountRoot, NewState, NewSid, Message;
    SearchFindsFullAddress(t, ip, env.now);
    var m := Mount(t, seqno, data, ip, fd, env);
    if m.table != m.rest {
      var i := FreeIndex(m.rest, 0);
      SweptCount(t, ip, env.now, |t|);
      CountUpdate(m.rest, ip, i, m.table[i], |t|);
    }
  }

  /** Freeing expired sessions leaves all live ones. */
  lemma {:induction false} LiveAreKept(t: Slist, ip: U32, now: int, cut: nat, n: nat)
    requires n <= |t|
    ensures Before(t, ip, now, n) <= CountIp(WithoutExpired(t, now, cut), ip, n) <= CountIp(t, ip, n)
  {
    if n > 0 {
      LiveAreKept(t, ip, now, cut, n - 1);
    }
  }

  /** A MOUNT from an address with sixteen live sessions ends the first of them, even if the mount then fails. If
      it succeeds, the new session takes over that one's ID, and the address has sixteen again. */
  lemma MountRecyclesFirst(t: Slist, seqno: U8, data: seq<U8>, ip: U32, fd: nat, env: MountEnv)
    requires Distinct(t) && FewPerIp(t) && Before(t, ip, env.now, |t|) >= 16
    requires data == [] || data[|data| - 1] == 0
    ensures var m := Mount(t, seqno, data, ip, fd, env);
      var i := FirstCounting(t, ip, env.now, 0);
      && i < |t| == |m.rest| == |m.table| && m.rest[i].None?
      && (forall k :: 0 <= k < |t| && k != i && Counts(t, k, ip, env.now) ==> m.rest[k] == t[k])
      && (m.table != m.rest <==> env.dirOk && Paths.RootChecked(env.served, MountRoot(data, env.beyond)))
      && (m.table != m.rest ==>
            var j := FreeIndex(m.rest, 0);
            && j <= i && Has(m.table, j, t[i].value.session.sid) && m.table == m.rest[j := m.table[j]]
            && m.table[j].value.ip == ip && CountIp(m.table, ip, |t|) == 16)
  {
    hide MountRoot, NewState, NewSid, Message, Paths.RootChecked;
    SearchFindsFullAddress(t, ip, env.now);
    var f := FindIp(t, ip, env.now);
    var m := Mount(t, seqno, data, ip, fd, env);
    LiveAreKept(t, ip, env.now, Sixteenth(t, ip, env.now, 0), |t|);
    CountUpdate(f.table, ip, f.index, None, |t|);
    if m.table != m.rest {
      var j := FreeIndex(m.rest, 0);
      CountUpdate(m.rest, ip, j, m.table[j], |t|);
    }
  }

  /** A mount that succeeds sends one reply, and the ID in it finds the new session, which has that reply
      saved and belongs to the client's address and connection. */
  lemma MountReplyNamesSession(t: Slist, seqno: U8, data: seq<U8>, ip: U32, fd: nat, env: MountEnv)
    requires Distinct(t) && FewPerIp(t)
    ensures var m := Mount(t, seqno, data, ip, fd, env);
      m.table != m.rest ==>
        && |m.sent| == 1 && |m.sent[0]| >= 2
        && var i := FindSid(m.table, FromLe16(m.sent[0][..2]), 0);
           i < |m.table| && m.table[i].Some? && m.rest[i].None?
           && m.table[i].value.session.lastmsg == m.sent[0] && m.table[i].value.ip == ip && m.table[i].value.fd == fd
  {
    hide MountRoot, NewState, NewSid, FindIp, FindSid, Distinct, FewPerIp;
    MountKeepsIds(t, seqno, data, ip, fd, env);
    var m := Mount(t, seqno, data, ip, fd, env);
    if m.table != m.rest {
      var i := FreeIndex(m.rest, 0);
      var sid := m.table[i].value.session.sid;
      assert m.sent[0][..2] == Le16(sid);
      RoundTrip16(sid, []);
      LookupIsUnique(m.table, sid, i);
    }
  }

  // ---------- After a mount ----------

  /** The session a successful mount makes. */
  lemma NewSessionIs(t: Slist, seqno: U8, data: seq<U8>, ip: U32, fd: nat, env: MountEnv)
    ensures var m := Mount(t, seqno, data, ip, fd, env);
      var i := FreeIndex(m.rest, 0);
      m.table != m.rest ==>
        && i < |m.table| && |m.sent| == 1 && m.table[i].Some?
        && var s := m.table[i].value.session;
           s.state == NewState(MountRoot(data, env.beyond)) && s.lastmsg == m.sent[0] && s.lastseqno == seqno
  {
    hide MountRoot, NewState, NewSid, FindIp, Message;
  }

  lemma NewStateIsNamable(root: CString)
    ensures Namable(NewState(root))
  {
  }

  /** After a mount the client's next number is in step, where exactly-once execution starts. */
  lemma MountStartsInStep(t: Slist, seqno: U8, data: seq<U8>, ip: U32, fd: nat, env: MountEnv)
    ensures var m := Mount(t, seqno, data, ip, fd, env);
      var i := FreeIndex(m.rest, 0);
      m.table != m.rest ==> i < |m.table| && m.table[i].Some? && Ready(Some(m.table[i].value.session), Next(seqno), 0)
  {
    hide Mount, NewState, Namable;
    NewSessionIs(t, seqno, data, ip, fd, env);
    NewStateIsNamable(MountRoot(data, env.beyond));
  }

  /** The protocol description numbers both MOUNT and UMOUNT zero. An UMOUNT so numbered right after the MOUNT
      is taken for a retry: it is answered with the mount's own reply, and the session stays. */
  lemma UmountWithMountsNumberIsLost(t: Slist, data: seq<U8>, ip: U32, fd: nat, env: MountEnv, cfg: Config,
      umount: seq<U8>, env': Env)
    ensures var m := Mount(t, 0, data, ip, fd, env);
      var i := FreeIndex(m.rest, 0);
      m.table != m.rest ==>
        && i < |m.table| && m.table[i].Some?
        && Serve(cfg, Some(m.table[i].value.session), 0, Request(UMOUNT, umount), env')
            == Served(Some(m.table[i].value.session), m.sent, [])
  {
    hide Mount, NewState;
    NewSessionIs(t, 0, data, ip, fd, env);
  }

  lemma {:induction false} NoneBefore(t: Slist, ip: U32, now: int, n: nat)
    requires forall i :: 0 <= i < |t| ==> t[i].None?
    ensures Before(t, ip, now, n) == 0
  {
    if n > 0 {
      NoneBefore(t, ip, now, n - 1);
    }
  }

  /** The first mount on an empty table. */
  lemma MountIntoEmpty(t: Slist, seqno: U8, data: seq<U8>, ip: U32, fd: nat, env: MountEnv)
    requires t != [] && forall i :: 0 <= i < |t| ==> t[i].None?
    requires data != [] && data[|data| - 1] == 0 && env.draws != [] && env.draws[0] != 0
    requires env.dirOk && Paths.RootChecked(env.served, MountRoot(data, env.beyond))
    ensures var m := Mount(t, seqno, data, ip, fd, env);
      |m.table| == |t| && m.table[0].Some? && m.table[0].value.session.state.root == MountRoot(data, env.beyond)
  {
    hide MountRoot, Message, FirstCounting, Sixteenth;
    NoneBefore(t, ip, env.now, |t|);
    SearchFindsFullAddress(t, ip, env.now);
  }

  /** A MOUNT request for this root. */
  function MountData(root: CString): seq<U8> {
    [0, 0] + Paths.Sent(root)
  }

  lemma MountDataNames(root: CString, beyond: CString)
    requires root != []
    ensures var data := MountData(root); data != [] && data[|data| - 1] == 0 && MountRoot(data, beyond) == root
  {
    hide Paths.NameIn;
    assert MountData(root)[2..] == Paths.Sent(root);
    Paths.NameInSent(root, []);
    assert Paths.Sent(root) + [] == Paths.Sent(root);
  }

  /** A mount root that its check does not see whole can lead outside: this one is admitted, and then the
      accepted name "a" names a place beside the served root. */
  lemma MountAdmitsLongRoot(t: Slist)
    requires t != [] && forall i :: 0 <= i < |t| ==> t[i].None?
    ensures var m := Mount(t, 0, MountData(Paths.LongRoot()), 0, 0, MountEnv(0, [1], "/srv", true, 0, []));
      && |m.table| == |t| && m.table[0].Some? && !Paths.DotDot("a")
      && var sroot := m.table[0].value.session.state.root;
         !(Paths.Place("/srv") <= Paths.Place(Paths.FullPath("/srv", sroot, "a")))
  {
    hide Mount, MountData, Paths.LongRoot, Paths.Place, Paths.FullPath, Paths.RootChecked, Paths.DotDot;
    LongRootIsNotEmpty();
    Paths.LongRootLeadsOutside();
    MountAdmits(t, "/srv", Paths.LongRoot());
  }

  /** Any root that passes the check is the new session's. */
  lemma MountAdmits(t: Slist, served: CString, root: CString)
    requires t != [] && (forall i :: 0 <= i < |t| ==> t[i].None?) && root != [] && Paths.RootChecked(served, root)
    ensures var m := Mount(t, 0, MountData(root), 0, 0, MountEnv(0, [1], served, true, 0, []));
      |m.table| == |t| && m.table[0].Some? && m.table[0].value.session.state.root == root
  {
    hide Mount, MountData, Paths.RootChecked;
    MountDataNames(root, []);
    MountIntoEmpty(t, 0, MountData(root), 0, 0, MountEnv(0, [1], served, true, 0, []));
  }

  lemma LongRootIsNotEmpty()
    ensures Paths.LongRoot() != []
  {
  }
}
