/** Sending and resending through a session's retransmit buffer (src/datagram.c). */
module Replies {
  import opened Endian
  import opened Paging
  import opened Auth
  import opened Commands
  import opened Protocol
  import Atari

  datatype Header = Header(sid: U16, seqno: U8, cmd: U8, status: U8)

  /** The part of a session that tnfs_send writes: the last message, its size, its sequence number. */
  class Saved {
    const lastmsg: array<U8>
    var lastmsgsz: nat
    var lastseqno: U8

    constructor ()
      ensures Valid() && fresh(lastmsg) && lastmsgsz == 0 && lastseqno == 0
    {
      lastmsg := new U8[MAX_MESSAGE](_ => 0);
      lastmsgsz, lastseqno := 0, 0;
    }

    ghost predicate Valid()
      reads this
    {
      lastmsg.Length == MAX_MESSAGE && lastmsgsz <= MAX_MESSAGE
    }

    /** The session these fields belong to. */
    ghost function In(sid: U16, state: State): Session
      requires Valid()
      reads this, lastmsg
    {
      Session(sid, state, lastmsg[..lastmsgsz], lastseqno)
    }
  }

  /** The five bytes in front of the payload. */
  method PutHeader(buf: array<U8>, sid: U16, h: Header)
    requires buf.Length >= HEADER_BYTES
    modifies buf
    ensures buf[..HEADER_BYTES] == Message(sid, h.seqno, h.cmd, h.status, [])
    ensures forall i :: HEADER_BYTES <= i < buf.Length ==> buf[i] == old(buf[i])
  {
    PutLe16(buf, 0, sid);
    assert buf[0] == Le16(sid)[0] && buf[1] == Le16(sid)[1];
    buf[2], buf[3], buf[4] := h.seqno, h.cmd, h.status;
  }

  lemma MessageIs(sid: U16, h: Header, payload: seq<U8>, bytes: seq<U8>)
    requires |bytes| == HEADER_BYTES + |payload|
    requires bytes[..HEADER_BYTES] == Message(sid, h.seqno, h.cmd, h.status, [])
    requires forall i :: 0 <= i < |payload| ==> bytes[HEADER_BYTES + i] == payload[i]
    ensures bytes == Message(sid, h.seqno, h.cmd, h.status, payload)
  {
    var m := Message(sid, h.seqno, h.cmd, h.status, payload);
    forall i | 0 <= i < |bytes|
      ensures bytes[i] == m[i]
    {
      if i < HEADER_BYTES {
        assert bytes[..HEADER_BYTES][i] == m[i];
      } else {
        assert bytes[HEADER_BYTES + (i - HEADER_BYTES)] == payload[i - HEADER_BYTES];
      }
    }
  }

  /** tnfs_send without a session: only a header, with session ID 0, from a buffer of its own. */
  method SendBare(h: Header) returns (sent: seq<seq<U8>>)
    ensures sent == [Message(0, h.seqno, h.cmd, h.status, [])]
  {
    var buf := new U8[HEADER_BYTES](_ => 0);
    PutHeader(buf, 0, h);
    sent := [buf[..]];
    assert buf[..] == buf[..HEADER_BYTES];
  }

  /** tnfs_send for a session: the reply is written into the retransmit buffer and recorded; one that would
      not fit is dropped with nothing recorded. */
  method Send(s: Saved, h: Header, payload: seq<U8>) returns (sent: seq<seq<U8>>)
    requires s.Valid()
    modifies s, s.lastmsg
    ensures s.Valid()
    ensures forall state :: var m := Message(h.sid, h.seqno, h.cmd, h.status, payload);
      if |m| > MAX_MESSAGE then sent == [] && s.In(h.sid, state) == old(s.In(h.sid, state))
      else sent == [m] && s.In(h.sid, state) == old(s.In(h.sid, state)).(lastmsg := m, lastseqno := h.seqno)
  {
    hide Message;
    if HEADER_BYTES + |payload| > MAX_MESSAGE {
      return [];
    }
    PutHeader(s.lastmsg, h.sid, h);
    ghost var head := s.lastmsg[..HEADER_BYTES];
    Atari.Copy(s.lastmsg, HEADER_BYTES, payload);
    s.lastmsgsz, s.lastseqno := HEADER_BYTES + |payload|, h.seqno;
    sent := [s.lastmsg[..s.lastmsgsz]];
    assert forall i :: 0 <= i < HEADER_BYTES ==> s.lastmsg[i] == head[i];
    assert sent[0][..HEADER_BYTES] == head;
    MessageIs(h.sid, h, payload, sent[0]);
  }

  /** tnfs_resend: the saved bytes once more, and nothing changes. */
  method Resend(s: Saved) returns (sent: seq<seq<U8>>)
    requires s.Valid()
    ensures forall sid, state :: sent == [s.In(sid, state).lastmsg]
  {
    sent := [s.lastmsg[..s.lastmsgsz]];
  }

  /** The end of tnfs_decode and of the handler it calls, on the buffer: a number that was recorded resends,
      any other runs and sends. Session and datagrams are then as the protocol says, so a retry gets the bytes
      of the first answer, whatever was in the buffer before. */
  method Answer(s: Saved, h: Header, payload: seq<U8>, ghost cfg: Config, ghost state: State, ghost r: Request,
      ghost env: Env)
    returns (sent: seq<seq<U8>>)
    requires s.Valid() && CmdAllowed(cfg.settings.readOnly, r.cmd) && h.cmd == r.cmd
    requires Handle(cfg, state, r.cmd, r.data, env).out == Recorded(Reply(h.status, payload))
    modifies s, s.lastmsg
    ensures s.Valid()
    ensures var d := Deliver(cfg, old(s.In(h.sid, state)), h.seqno, r, env);
      sent == d.sent && s.In(h.sid, d.session.state) == d.session
  {
    hide Handle, Message;
    ghost var before := s.In(h.sid, state);
    ghost var done := Handle(cfg, state, r.cmd, r.data, env);
    assert s.In(h.sid, done.state) == before.(state := done.state);
    if h.seqno == s.lastseqno {
      sent := Resend(s);
      assert s.In(h.sid, state) == before && sent == [s.In(h.sid, state).lastmsg];
    } else {
      sent := Send(s, h, payload);
    }
  }
}
