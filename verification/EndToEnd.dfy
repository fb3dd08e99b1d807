/** A sender, the bytes under way, and a receiver. */
module EndToEnd {
  import opened Buffer
  import opened Lines
  import I = Inbound
  import O = Outbound

  /** `sent` are the messages queued by the sender, `wire` the bytes its socket
      took that the receiver has not read yet. */
  datatype Link = Link(sent: seq<seq<byte>>, out: O.Out, wire: seq<byte>, inn: I.In)

  const IDLE := Link([], O.EMPTY, [], I.EMPTY)

  datatype Action =
    | Send(msg: seq<byte>, server: bool, socket: O.Socket)
    | Flush(socket: O.Socket)
    | Read(n: nat)
    | Command(accepted: bool)

  /** A message as the sender may give it: a C string of one line. */
  predicate Plain(msg: seq<byte>) { 0 !in msg && CR !in msg && LF !in msg }

  /** The bytes the socket took go onto the wire. */
  function Passed(l: Link, out: O.Out): Link {
    l.(out := out, wire := if |l.out.sent| <= |out.sent| then l.wire + out.sent[|l.out.sent|..] else l.wire)
  }

  function Act(l: Link, a: Action): Link {
    match a
    case Send(msg, server, k) =>
      var out := O.Written(l.out, O.OnWire(msg), server, k);
      var p := Passed(l, out);
      if out.accepted == l.out.accepted then p else p.(sent := l.sent + [msg])
    case Flush(k) => if l.out.open then Passed(l, O.Flushed(l.out, k)) else l
    case Read(n) =>
      if l.inn.status != I.Open || n > |l.wire| || n > I.READBUFFER_LEN then l
      else if |l.inn.buf| >= I.READBUFFER_LEN then l.(inn := I.Receive(l.inn, []))
      else l.(inn := I.Receive(l.inn, l.wire[..n]), wire := l.wire[n..])
    case Command(accepted) => l.(inn := I.Act(l.inn, I.Command(accepted)))
  }

  function Run(l: Link, actions: seq<Action>): Link
    decreases actions
  {
    if actions == [] then l else Run(Act(l, actions[0]), actions[1..])
  }

  function Wire(msgs: seq<seq<byte>>): seq<byte> {
    if msgs == [] then [] else Wire(msgs[..|msgs| - 1]) + O.OnWire(msgs[|msgs| - 1])
  }

  /** The messages as they are cut, without empty ones. */
  function Expected(msgs: seq<seq<byte>>): seq<Line> {
    if msgs == [] then [] else Expected(msgs[..|msgs| - 1]) + Kept(O.Cut(msgs[|msgs| - 1]))
  }

  predicate AllPlain(msgs: seq<seq<byte>>) { forall i :: 0 <= i < |msgs| ==> Plain(msgs[i]) }

  // ------------------------------------------------------------- one line

  lemma CutPlain(msg: seq<byte>)
    requires Plain(msg)
    ensures Plain(O.Cut(msg))
  {
    assert Plain(O.CUT_SUFFIX);
  }

  lemma OneLine(msg: seq<byte>)
    requires Plain(msg)
    ensures var w := O.OnWire(msg); 0 !in w && Complete(w) && Lines.Of(w) == Kept(O.Cut(msg))
  {
    CutPlain(msg);
    var m, w := O.Cut(msg), O.OnWire(msg);
    forall i | 0 <= i < |m| ensures !Eol(w[i]) { assert w[i] == m[i] && m[i] in m; }
    FirstEolIs(w, |m|);
    assert FirstLine(w) == w;
    OfFirstLine(w);
    assert w[..|m|] == m;
  }

  /** The stream of a sequence of messages has their lines, and no other. */
  lemma {:induction false} WireLines(msgs: seq<seq<byte>>)
    requires AllPlain(msgs)
    ensures 0 !in Wire(msgs) && Complete(Wire(msgs)) && Lines.Of(Wire(msgs)) == Expected(msgs)
  {
    if msgs != [] {
      var front, msg := msgs[..|msgs| - 1], msgs[|msgs| - 1];
      WireLines(front);
      OneLine(msg);
      OfAppend(Wire(front), O.OnWire(msg));
    }
  }

  lemma {:induction false} ExpectedShort(msgs: seq<seq<byte>>, i: nat)
    requires i < |Expected(msgs)|
    ensures |Expected(msgs)[i]| <= 510
  {
    if i < |Expected(msgs[..|msgs| - 1])| { ExpectedShort(msgs[..|msgs| - 1], i); }
  }

  // ------------------------------------------------------------ invariant

  /** What was accepted for sending are the messages; what the socket took has
      been read or is under way. */
  predicate Consistent(l: Link) {
    && O.Conserves(l.out, O.WRITEBUFFER_SLINK_LEN)
    && l.out.accepted == Wire(l.sent)
    && l.out.sent == l.inn.Received() + l.wire
    && I.Sound(l.inn)
  }

  lemma PassedConsistent(l: Link, out: O.Out)
    requires l.out.sent == l.inn.Received() + l.wire && l.out.sent <= out.sent
    ensures Passed(l, out).out.sent == l.inn.Received() + Passed(l, out).wire
  {
    assert out.sent == l.out.sent + out.sent[|l.out.sent|..];
  }

  lemma WrittenGrows(s: O.Out, data: seq<byte>, server: bool, k: O.Socket)
    requires O.Conserves(s, O.WRITEBUFFER_SLINK_LEN)
    ensures s.sent <= O.Written(s, data, server, k).sent
  {
    O.FlushedConserves(s, k, O.WRITEBUFFER_SLINK_LEN);
  }

  lemma SendConsistent(l: Link, msg: seq<byte>, server: bool, k: O.Socket)
    requires Consistent(l)
    ensures Consistent(Act(l, Send(msg, server, k)))
  {
    var data := O.OnWire(msg);
    var out := O.Written(l.out, data, server, k);
    O.WrittenConserves(l.out, data, server, k, O.WRITEBUFFER_SLINK_LEN);
    WrittenGrows(l.out, data, server, k);
    PassedConsistent(l, out);
    var msgs := l.sent + [msg];
    assert msgs[..|msgs| - 1] == l.sent;
  }

  /** A change of the reader that loses no byte. */
  lemma ReaderConsistent(l: Link, inn: I.In, wire: seq<byte>)
    requires Consistent(l) && I.Sound(inn) && inn.Received() + wire == l.inn.Received() + l.wire
    ensures Consistent(l.(inn := inn, wire := wire))
  {}

  lemma ReceivedMore(s: I.In, bytes: seq<byte>, rest: seq<byte>)
    requires |s.buf| < I.READBUFFER_LEN
    ensures I.Receive(s, bytes).Received() + rest == s.Received() + (bytes + rest)
  {}

  lemma ReceiveConsistent(l: Link, bytes: seq<byte>, rest: seq<byte>)
    requires Consistent(l) && l.inn.status == I.Open && |l.inn.buf| < I.READBUFFER_LEN && l.wire == bytes + rest
    ensures Consistent(l.(inn := I.Receive(l.inn, bytes), wire := rest))
  {
    I.ReceiveSound(l.inn, bytes);
    ReceivedMore(l.inn, bytes, rest);
    ReaderConsistent(l, I.Receive(l.inn, bytes), rest);
  }

  lemma OverflowConsistent(l: Link)
    requires Consistent(l) && l.inn.status == I.Open && |l.inn.buf| >= I.READBUFFER_LEN
    ensures Consistent(l.(inn := I.Receive(l.inn, [])))
  {
    I.ReceiveSound(l.inn, []);
    ReaderConsistent(l, I.Receive(l.inn, []), l.wire);
  }

  lemma ReadConsistent(l: Link, n: nat)
    requires Consistent(l)
    ensures Consistent(Act(l, Read(n)))
  {
    if l.inn.status == I.Open && n <= |l.wire| && n <= I.READBUFFER_LEN {
      if |l.inn.buf| >= I.READBUFFER_LEN {
        OverflowConsistent(l);
      } else {
        assert l.wire[..n] + l.wire[n..] == l.wire;
        ReceiveConsistent(l, l.wire[..n], l.wire[n..]);
      }
    }
  }

  lemma CommandConsistent(l: Link, accepted: bool)
    requires Consistent(l)
    ensures Consistent(Act(l, Command(accepted)))
  {
    if l.inn.status == I.Open {
      I.TakeSound(l.inn, accepted);
      TakeReceived(l.inn, accepted);
    }
  }

  lemma TakeReceived(s: I.In, accepted: bool)
    ensures I.Take(s, accepted).Received() == s.Received()
  {
    var v := Visible(s.buf);
    if FirstEol(v) < |v| {
      var l := FirstLine(v);
      assert l == s.buf[..|l|];
      assert (s.done + l) + s.buf[|l|..] == s.done + s.buf;
    }
  }

  lemma {:induction false} RunConsistent(l: Link, actions: seq<Action>)
    requires Consistent(l)
    ensures Consistent(Run(l, actions))
    decreases actions
  {
    if actions != [] {
      match actions[0] {
        case Send(msg, server, k) => SendConsistent(l, msg, server, k);
        case Flush(k) =>
          O.FlushedConserves(l.out, k, O.WRITEBUFFER_SLINK_LEN);
          PassedConsistent(l, O.Flushed(l.out, k));
        case Read(n) => ReadConsistent(l, n);
        case Command(accepted) => CommandConsistent(l, accepted);
      }
      RunConsistent(Act(l, actions[0]), actions[1..]);
    }
  }

  lemma ArrivedLines(got: seq<byte>, rest: seq<byte>)
    requires 0 !in got + rest
    ensures Visible(got) == got && Lines.Of(got) <= Lines.Of(got + rest)
  {
    forall i | 0 <= i < |got| ensures got[i] != 0 { assert (got + rest)[i] == got[i]; }
    VisibleAppend(got, []);
    assert got + [] == got;
    OfPrefix(got, rest);
  }

  /** What has arrived is a prefix of what was sent, line by line. */
  lemma DuePrefix(l: Link)
    requires Consistent(l) && AllPlain(l.sent)
    ensures I.Due(l.inn) <= Expected(l.sent)
  {
    ReadThenRest(l);
    WireLines(l.sent);
    ArrivedLines(l.inn.Received(), l.wire + l.out.wbuf);
  }

  lemma ReadThenRest(l: Link)
    requires Consistent(l)
    ensures l.inn.Received() + (l.wire + l.out.wbuf) == Wire(l.sent)
  {
    var got := l.inn.Received();
    assert got + (l.wire + l.out.wbuf) == (got + l.wire) + l.out.wbuf;
  }

  lemma NeverTooLong(l: Link)
    requires Consistent(l) && AllPlain(l.sent)
    ensures l.inn.status != I.TooLong
  {
    DuePrefix(l);
    if l.inn.status == I.TooLong {
      I.RefusedLong(l.inn);
      ExpectedShort(l.sent, |l.inn.delivered|);
    }
  }

  /** End to end: for any messages of one line each, any partial writes, any
      cutting into reads and any time of processing, the lines handed to the
      parser are a prefix of the messages as they were cut, without the empty
      ones; no line is ever refused as too long; and when nothing is left on the
      way all of them have arrived. */
  lemma EndToEnd(actions: seq<Action>)
    requires AllPlain(Run(IDLE, actions).sent)
    ensures var l := Run(IDLE, actions);
            && l.inn.delivered <= Expected(l.sent)
            && l.inn.status != I.TooLong
            && (l.inn.status == I.Open && l.out.wbuf == [] && l.wire == [] && Lines.Of(Visible(l.inn.buf)) == [] ==>
                  l.inn.delivered == Expected(l.sent))
  {
    var l := Run(IDLE, actions);
    assert Consistent(IDLE);
    RunConsistent(IDLE, actions);
    DuePrefix(l);
    NeverTooLong(l);
    if l.inn.status == I.Open && l.out.wbuf == [] && l.wire == [] && Lines.Of(Visible(l.inn.buf)) == [] {
      AllArrived(l);
    }
  }

  lemma AllArrived(l: Link)
    requires Consistent(l) && AllPlain(l.sent) && l.inn.status == I.Open
    requires l.out.wbuf == [] && l.wire == [] && Lines.Of(Visible(l.inn.buf)) == []
    ensures l.inn.delivered == Expected(l.sent)
  {
    I.InStepDue(l.inn);
    ReadThenRest(l);
    WireLines(l.sent);
    var got := l.inn.Received();
    assert got + ([] + []) == got;
    ArrivedLines(got, []);
  }

  // ------------------------------------------------- without the cut

  /** The messages that are not empty. */
  function Spoken(msgs: seq<seq<byte>>): seq<seq<byte>> {
    if msgs == [] then []
    else Spoken(msgs[..|msgs| - 1]) + (if msgs[|msgs| - 1] == [] then [] else [msgs[|msgs| - 1]])
  }

  /** Line by line, these messages have arrived. */
  predicate Told(msgs: seq<seq<byte>>, lines: seq<Line>) {
    |lines| <= |msgs| && forall i :: 0 <= i < |lines| ==> O.Arrives(msgs[i], lines[i])
  }

  lemma {:induction false} ExpectedTold(msgs: seq<seq<byte>>)
    ensures |Expected(msgs)| == |Spoken(msgs)| && Told(Spoken(msgs), Expected(msgs))
  {
    if msgs != [] {
      ExpectedTold(msgs[..|msgs| - 1]);
      O.CutArrives(msgs[|msgs| - 1]);
    }
  }

  /** End to end on the messages themselves: the lines handed to the parser are
      the first messages that are not empty, those of at most 510 bytes unchanged,
      longer ones with their first 505 bytes and "[CUT]"; when nothing is left on
      the way, all of them. */
  lemma MessagesArrive(actions: seq<Action>)
    requires AllPlain(Run(IDLE, actions).sent)
    ensures var l := Run(IDLE, actions);
            && Told(Spoken(l.sent), l.inn.delivered)
            && (l.inn.status == I.Open && l.out.wbuf == [] && l.wire == [] && Lines.Of(Visible(l.inn.buf)) == [] ==>
                  |l.inn.delivered| == |Spoken(l.sent)|)
  {
    EndToEnd(actions);
    ExpectedTold(Run(IDLE, actions).sent);
  }

  lemma {:induction false} AllSpoken(msgs: seq<seq<byte>>)
    requires forall i :: 0 <= i < |msgs| ==> msgs[i] != []
    ensures Spoken(msgs) == msgs
  {
    if msgs != [] {
      AllSpoken(msgs[..|msgs| - 1]);
      assert msgs == msgs[..|msgs| - 1] + [msgs[|msgs| - 1]];
    }
  }

  /** Messages of 1 to 510 bytes arrive as they were sent. */
  lemma ShortArrive(actions: seq<Action>)
    requires AllPlain(Run(IDLE, actions).sent)
    requires var m := Run(IDLE, actions).sent; forall i :: 0 <= i < |m| ==> 1 <= |m[i]| <= 510
    ensures var l := Run(IDLE, actions);
            && l.inn.delivered <= l.sent
            && (l.inn.status == I.Open && l.out.wbuf == [] && l.wire == [] && Lines.Of(Visible(l.inn.buf)) == [] ==>
                  l.inn.delivered == l.sent)
  {
    MessagesArrive(actions);
    AllSpoken(Run(IDLE, actions).sent);
  }
}
