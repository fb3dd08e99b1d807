/** Writing: messages become bounded lines in a FIFO that the socket empties as
    it likes. */
module Outbound {
  import opened Defines
  import opened Buffer
  import opened Lines

  const WRITEBUFFER_FLUSH_LEN := 4096
  const WRITEBUFFER_MAX_LEN := 32768
  const WRITEBUFFER_SLINK_LEN := 65536

  /** "[CUT]" */
  const CUT_SUFFIX: seq<byte> := [91, 67, 85, 84, 93]

  /** What the socket makes of an attempt to write: it takes some bytes, none
      for now, or fails. */
  datatype Socket = Takes(n: nat) | Again | Broken

  /** Bytes the socket has taken, bytes waiting, everything accepted for sending,
      the counter of sent bytes, and whether the connection is open. */
  datatype Out = Out(sent: seq<byte>, wbuf: seq<byte>, accepted: seq<byte>, bytesOut: nat, open: bool)

  const EMPTY := Out([], [], [], 0, true)

  /** Data is queued (with the link type and the socket's answer should a flush
      be needed), or the socket is writable. */
  datatype Action = Write(data: seq<byte>, server: bool, socket: Socket) | Flush(socket: Socket)

  /** `Handle_Write`; nothing is written from an empty buffer. */
  function Flushed(s: Out, k: Socket): Out {
    if s.wbuf == [] then s
    else match k
      case Takes(n) => if n > |s.wbuf| then s else s.(sent := s.sent + s.wbuf[..n], wbuf := s.wbuf[n..])
      case Again => s
      case Broken => s.(open := false)
  }

  predicate FlushOk(s: Out, k: Socket) {
    s.wbuf == [] || k == Again || (k.Takes? && k.n <= |s.wbuf|)
  }

  function Limit(server: bool): nat { if server then WRITEBUFFER_SLINK_LEN else WRITEBUFFER_MAX_LEN }

  /** `Conn_Write`: flush when the buffer gets long, give up the connection when
      it is too long all the same, else queue all of the data. */
  function Written(s: Out, data: seq<byte>, server: bool, k: Socket): Out {
    if !s.open then s
    else if |s.wbuf| + |data| >= WRITEBUFFER_FLUSH_LEN && !FlushOk(s, k) then Flushed(s, k)
    else
      var t := if |s.wbuf| + |data| >= WRITEBUFFER_FLUSH_LEN then Flushed(s, k) else s;
      if |t.wbuf| + |data| >= Limit(server) then t.(open := false)
      else t.(wbuf := t.wbuf + data, accepted := t.accepted + data, bytesOut := t.bytesOut + |data|)
  }

  function Act(s: Out, a: Action): Out {
    match a
    case Write(data, server, k) => Written(s, data, server, k)
    case Flush(k) => if s.open then Flushed(s, k) else s
  }

  function Run(s: Out, actions: seq<Action>): Out
    decreases actions
  {
    if actions == [] then s else Run(Act(s, actions[0]), actions[1..])
  }

  /** Conservation, the counter, and the bound of the buffer. */
  predicate Conserves(s: Out, limit: nat) {
    s.sent + s.wbuf == s.accepted && s.bytesOut == |s.accepted| && |s.wbuf| < limit
  }

  lemma FlushedConserves(s: Out, k: Socket, limit: nat)
    requires Conserves(s, limit)
    ensures Conserves(Flushed(s, k), limit)
    ensures s.sent <= Flushed(s, k).sent && Flushed(s, k).accepted == s.accepted
  {
    if k.Takes? && k.n <= |s.wbuf| {
      assert s.sent + s.wbuf[..k.n] + s.wbuf[k.n..] == s.sent + s.wbuf;
    }
  }

  lemma WrittenConserves(s: Out, data: seq<byte>, server: bool, k: Socket, limit: nat)
    requires Conserves(s, limit) && Limit(server) <= limit
    ensures Conserves(Written(s, data, server, k), limit)
    ensures var t := Written(s, data, server, k);
            t.accepted == s.accepted || t.accepted == s.accepted + data
  {
    FlushedConserves(s, k, limit);
    var t := if |s.wbuf| + |data| >= WRITEBUFFER_FLUSH_LEN then Flushed(s, k) else s;
    assert t.sent + (t.wbuf + data) == t.sent + t.wbuf + data;
  }

  /** Every run: what the socket took followed by what waits is what was
      accepted, byte for byte; the counter is its length; and the buffer stays
      below the limit of the link types that wrote to it. */
  lemma {:induction false} RunConserves(s: Out, actions: seq<Action>, limit: nat)
    requires Conserves(s, limit)
    requires forall i :: 0 <= i < |actions| && actions[i].Write? ==> Limit(actions[i].server) <= limit
    ensures Conserves(Run(s, actions), limit)
    decreases actions
  {
    if actions != [] {
      match actions[0] {
        case Write(data, server, k) => WrittenConserves(s, data, server, k, limit);
        case Flush(k) => FlushedConserves(s, k, limit);
      }
      RunConserves(Act(s, actions[0]), actions[1..], limit);
    }
  }

  /** On a link that is no server link the buffer stays below 32768 bytes. */
  lemma UserLink(actions: seq<Action>)
    requires forall i :: 0 <= i < |actions| && actions[i].Write? ==> !actions[i].server
    ensures Conserves(Run(EMPTY, actions), 32768)
  {
    RunConserves(EMPTY, actions, WRITEBUFFER_MAX_LEN);
  }

  lemma AnyLink(actions: seq<Action>)
    ensures Conserves(Run(EMPTY, actions), 65536)
  {
    RunConserves(EMPTY, actions, WRITEBUFFER_SLINK_LEN);
  }

  // ------------------------------------------------------------- messages

  /** What `Conn_WriteStr` makes of a message: at most 510 bytes. */
  function Cut(msg: seq<byte>): (r: Line)
    ensures |r| <= COMMAND_LEN - 3
  {
    if |msg| >= COMMAND_LEN - 2 then msg[..COMMAND_LEN - 8] + CUT_SUFFIX else msg
  }

  /** A message of at most 510 bytes is sent as it is; a longer one keeps its first
      505 bytes and ends in "[CUT]", which makes 510. */
  predicate Arrives(msg: seq<byte>, line: Line) {
    if |msg| <= 510 then line == msg
    else |line| == 510 && line[..505] == msg[..505] && line[505..] == [91, 67, 85, 84, 93]
  }

  lemma CutArrives(msg: seq<byte>)
    ensures Arrives(msg, Cut(msg))
  {
    if |msg| > 510 {
      var r := Cut(msg);
      assert r[505..] == CUT_SUFFIX && r[..505] == msg[..505];
    }
  }

  function OnWire(msg: seq<byte>): (r: seq<byte>)
    ensures 2 <= |r| <= COMMAND_LEN - 1
  {
    Cut(msg) + [CR, LF]
  }

  /** A line on the wire ends in CR LF, bytes 13 and 10. */
  lemma WireEnds(msg: seq<byte>)
    ensures exists line :: Arrives(msg, line) && OnWire(msg) == line + [13, 10]
  {
    CutArrives(msg);
  }

  // ------------------------------------------------------- as it is coded

  class Writer {
    const wbuf: Array
    var bytesOut: nat
    var open: bool
    ghost var sent: seq<byte>
    ghost var accepted: seq<byte>
    ghost var view: seq<byte>

    ghost predicate Valid()
      reads this, wbuf, wbuf.mem
    {
      wbuf.Valid() && (open ==> view == wbuf.Contents())
    }

    ghost function State(): Out
      reads this
    {
      Out(sent, view, accepted, bytesOut, open)
    }

    constructor ()
      ensures Valid() && State() == EMPTY && fresh(wbuf)
    {
      wbuf := new Array();
      bytesOut, open, sent, accepted, view := 0, true, [], [], [];
    }

    method HandleWrite(k: Socket) returns (ok: bool)
      requires Valid() && open
      modifies this, wbuf, wbuf.mem
      ensures Valid() && wbuf.mem == old(wbuf.mem)
      ensures ok == FlushOk(old(State()), k) && State() == Flushed(old(State()), k)
    {
      if wbuf.used == 0 {
        return true;
      }
      match k {
        case Again => return true;
        case Broken =>
          open := false;
          return false;
        case Takes(n) =>
          if n > wbuf.used {
            return false;
          }
          wbuf.MoveLeft(n);
          sent, view := sent + view[..n], view[n..];
          return true;
      }
    }

    method Write(data: seq<byte>, server: bool, k: Socket) returns (ok: bool)
      requires Valid() && data != []
      modifies this, wbuf, wbuf.mem
      ensures Valid() && State() == Written(old(State()), data, server, k)
      ensures ok == (old(open) && accepted == old(accepted) + data)
    {
      if !open {
        return false;
      }
      if wbuf.used + |data| >= WRITEBUFFER_FLUSH_LEN {
        var flushed := HandleWrite(k);
        if !flushed {
          return false;
        }
      }
      if wbuf.used + |data| >= Limit(server) {
        open := false;
        return false;
      }
      var stored := wbuf.CatB(data, true);
      view, accepted := view + data, accepted + data;
      bytesOut := bytesOut + |data|;
      return true;
    }

    /** `Conn_WriteStr`: the formatted message is cut to its buffer, marked if it
        did not fit, and ended with CR LF. */
    method WriteStr(msg: seq<byte>, server: bool, k: Socket) returns (ok: bool)
      requires Valid()
      modifies this, wbuf, wbuf.mem
      ensures Valid() && State() == Written(old(State()), OnWire(msg), server, k)
    {
      var buffer := if |msg| > COMMAND_LEN - 3 then msg[..COMMAND_LEN - 3] else msg;
      if |msg| >= COMMAND_LEN - 2 {
        buffer := buffer[..COMMAND_LEN - |CUT_SUFFIX| - 2 - 1] + CUT_SUFFIX;
      }
      assert buffer == Cut(msg);
      ok := Write(buffer + [CR, LF], server, k);
    }
  }

  /** What is accepted for sending: everything on an open link, unless the flush
      that 4096 bytes demand fails, or 32768 bytes, on a server link 65536, would
      be waiting after it; then the link is given up. */
  lemma WriteExact(s: Out, data: seq<byte>, server: bool, k: Socket)
    requires s.open && data != []
    ensures var t := Written(s, data, server, k); var total := |s.wbuf| + |data|;
            var flushed := if total >= 4096 && k.Takes? && k.n <= |s.wbuf| then k.n else 0;
            var failed := total >= 4096 && s.wbuf != [] && (k.Broken? || (k.Takes? && k.n > |s.wbuf|));
            && (t.accepted == s.accepted + data <==> !failed && total - flushed < (if server then 65536 else 32768))
            && (t.accepted == s.accepted + data || t.accepted == s.accepted)
            && (t.open <==> t.accepted == s.accepted + data || (failed && k.Takes?))
            && (total < 4096 ==> t.sent == s.sent && t.wbuf == s.wbuf + data)
  {}
}
