/** What a client of READDIRX, TELLDIR and SEEKDIR gets from a run of requests on one handle, each handled in
    the state the one before left (src/directory.c). */
module Reading {
  import opened CStrings
  import opened Endian
  import opened EntryOrder
  import opened Listing
  import opened DirHandle
  import opened Handles
  import opened Paging
  import opened DirCommands
  import opened Commands

  // ---------- A run of READDIRX requests ----------

  /** The count a request asks for, and the surroundings in which it is handled. */
  datatype Ask = Ask(count: U8, env: Env)

  /** The state in the end, and what was answered to each request. */
  datatype Batch = Batch(state: State, outs: seq<Out>)

  ghost function ReadAll(cfg: Config, st: State, h: U8, asks: seq<Ask>): Batch
    decreases |asks|
  {
    if asks == [] then Batch(st, [])
    else
      var d := Commands.Handle(cfg, st, 0x18, [h, asks[0].count], asks[0].env);
      var rest := ReadAll(cfg, d.state, h, asks[1..]);
      Batch(rest.state, [d.out] + rest.outs)
  }

  /** The entries a client takes from one answer. */
  function Received(o: Out): seq<Entry> {
    if !o.Recorded? || o.reply.status != 0 then []
    else match DecodePage(o.reply.payload) case None => [] case Some(p) => p.entries
  }

  function AllReceived(outs: seq<Out>): seq<Entry> {
    if outs == [] then [] else Received(outs[0]) + AllReceived(outs[1..])
  }

  /** One answer with es[at..] still to come: end of file if that is nothing; else a page of at least one and
      at most `count` entries from there on, as many as fit, with the end flag if nothing is left behind it. */
  ghost predicate Answers(o: Out, es: seq<Entry>, at: nat, count: U8) {
    && at <= |es| && o.Recorded?
    && if at == |es| then o.reply == Reply(0x21, [])
       else
         && o.reply.status == 0 && |o.reply.payload| <= 527
         && DecodePage(o.reply.payload).Some?
         && var p := DecodePage(o.reply.payload).value;
            var n := |p.entries|;
            && 1 <= n <= |es| - at && p.entries == es[at..at + n] && (count != 0 ==> n <= count)
            && (p.eof <==> at + n == |es|) && p.dirpos == at % 65536
            && (at + n < |es| ==> n == count || |o.reply.payload| + 14 + |es[at + n].name| > 527)
  }

  /** The entries of a slot may be listed and its cursor is among them. */
  predicate Readable(st: State, h: U8) {
    h < |st.slots| && st.slots[h].cursor <= |st.slots[h].entries| && Listable(st.slots[h].entries)
  }

  function MovedTo(st: State, h: U8, c: nat): State
    requires h < |st.slots|
  {
    st.(slots := st.slots[h := st.slots[h].(cursor := c)])
  }

  lemma OneRead(cfg: Config, st: State, h: U8, a: Ask)
    requires Readable(st, h)
    ensures var d := Commands.Handle(cfg, st, 0x18, [h, a.count], a.env);
      var s := st.slots[h];
      && Answers(d.out, s.entries, s.cursor, a.count)
      && s.cursor + |Received(d.out)| <= |s.entries|
      && Received(d.out) == s.entries[s.cursor..s.cursor + |Received(d.out)|]
      && d.state == MovedTo(st, h, s.cursor + |Received(d.out)|)
  {
    hide DecodePage, Payload, Listable;
    var s := st.slots[h];
    var data: seq<U8> := [h, a.count];
    var d := Commands.Handle(cfg, st, 0x18, data, a.env);
    assert HandleOf(st, data, 2) == Some(h as nat);
    assert d == Done(st.(slots := st.slots[h := AfterRead(s, a.count)]), Recorded(ReadReply(s, a.count)), []);
    if s.cursor < |s.entries| {
      PageCount(s.entries, s.cursor, a.count);
      PageFits(s.entries, s.cursor, a.count);
      DecodePayload(s.entries, s.cursor, a.count);
      CountIsKept(s.entries, s.cursor, a.count);
    }
  }

  lemma CountIsKept(es: seq<Entry>, at: nat, count: U8)
    requires at < |es|
    ensures count != 0 ==> PageSize(es, at, count) <= count
  {
    TakenIsLongest(es, at, count, 4, 0);
  }

  /** However many entries each request asks for: the answers bring the entries from the cursor on, each once
      and in order; every answer is as it should be at its place; only the cursor of this handle moves. As many
      requests as there are entries left bring all of them. */
  lemma {:induction false} ReadingDelivers(cfg: Config, st: State, h: U8, asks: seq<Ask>)
    requires Readable(st, h)
    ensures var b := ReadAll(cfg, st, h, asks);
      var s := st.slots[h];
      var c := s.cursor + |AllReceived(b.outs)|;
      && c <= |s.entries| && AllReceived(b.outs) == s.entries[s.cursor..c]
      && b.state == MovedTo(st, h, c)
      && (|asks| >= |s.entries| - s.cursor ==> c == |s.entries|)
    decreases |asks|
  {
    hide Commands.Handle, Received, Answers, DecodePage, Listable;
    var s := st.slots[h];
    if asks != [] {
      var d := Commands.Handle(cfg, st, 0x18, [h, asks[0].count], asks[0].env);
      OneRead(cfg, st, h, asks[0]);
      AnswerBrings(d.out, s.entries, s.cursor, asks[0].count);
      ReadingDelivers(cfg, d.state, h, asks[1..]);
    }
  }

  /** Unless at the end, an answer brings something. */
  lemma AnswerBrings(o: Out, es: seq<Entry>, at: nat, count: U8)
    requires Answers(o, es, at, count)
    ensures at < |es| ==> |Received(o)| > 0
    ensures at == |es| ==> Received(o) == []
  {
  }

  /** The answer to request i of a run, by what the requests before it brought. */
  lemma {:induction false} EveryAnswerFits(cfg: Config, st: State, h: U8, asks: seq<Ask>, i: nat)
    requires Readable(st, h) && i < |asks|
    ensures var b := ReadAll(cfg, st, h, asks);
      var s := st.slots[h];
      |b.outs| == |asks| && Answers(b.outs[i], s.entries, s.cursor + |AllReceived(b.outs[..i])|, asks[i].count)
    decreases |asks|
  {
    hide Commands.Handle, Received, Answers, DecodePage, Listable;
    var d := Commands.Handle(cfg, st, 0x18, [h, asks[0].count], asks[0].env);
    var b, rest := ReadAll(cfg, st, h, asks), ReadAll(cfg, d.state, h, asks[1..]);
    OneRead(cfg, st, h, asks[0]);
    if i > 0 {
      EveryAnswerFits(cfg, d.state, h, asks[1..], i - 1);
      assert b.outs[..i][0] == d.out && b.outs[..i][1..] == rest.outs[..i - 1];
    } else if |asks| > 1 {
      EveryAnswerFits(cfg, d.state, h, asks[1..], 0);
    }
  }

  // ---------- Telling and seeking ----------

  lemma Told(cfg: Config, st: State, h: U8, env: Env)
    requires h < |st.slots| && st.slots[h].open && st.slots[h].entries != []
    ensures Commands.Handle(cfg, st, 0x15, [h], env)
            == Done(st, Recorded(Reply(0, Le32(st.slots[h].cursor % 0x1_0000_0000))), [])
  {
    hide Le32;
    assert HandleOf(st, [h], 1) == Some(h as nat);
  }

  lemma Sought(cfg: Config, st: State, h: U8, v: U32, env: Env)
    requires h < |st.slots| && st.slots[h].open && st.slots[h].entries != [] && v <= |st.slots[h].entries|
    ensures Commands.Handle(cfg, st, 0x16, [h] + Le32(v), env) == Done(MovedTo(st, h, v), Recorded(Reply(0, [])), [])
  {
    var data: seq<U8> := [h] + Le32(v);
    assert data[1..5] == Le32(v);
    RoundTrip32(v, []);
    hide Le32, FromLe32;
    assert HandleOf(st, data, 5) == Some(h as nat);
  }

  /** What TELLDIR answers, handed to SEEKDIR in any later state of the same listing, makes reading go on as it
      would have then. */
  lemma SeekResumes(cfg: Config, st: State, h: U8, env: Env, later: nat, env': Env)
    requires h < |st.slots| && st.slots[h].open && st.slots[h].entries != []
    requires st.slots[h].cursor <= |st.slots[h].entries| < 0x1_0000_0000
    ensures var told := Commands.Handle(cfg, st, 0x15, [h], env);
      && told.state == st && told.out.Recorded? && told.out.reply.status == 0
      && var sought := Commands.Handle(cfg, MovedTo(st, h, later), 0x16, [h] + told.out.reply.payload, env');
         sought.state == st && sought.out == Recorded(Reply(0, []))
  {
    hide Commands.Handle;
    Told(cfg, st, h, env);
    Sought(cfg, MovedTo(st, h, later), h, st.slots[h].cursor, env');
    MovedBack(st, h, later);
  }

  lemma MovedBack(st: State, h: U8, later: nat)
    requires h < |st.slots|
    ensures MovedTo(MovedTo(st, h, later), h, st.slots[h].cursor) == st
  {
    assert MovedTo(MovedTo(st, h, later), h, st.slots[h].cursor).slots == st.slots;
  }
}
