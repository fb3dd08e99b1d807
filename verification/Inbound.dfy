/** Reading: byte chunks of any size become lines handed to the parser. */
module Inbound {
  import opened Defines
  import opened Buffer
  import opened Lines

  const READBUFFER_LEN := 2048

  /** Why a connection was closed by its reader. */
  datatype Status = Open | TooLong | Rejected | Overflow

  /** The bytes consumed so far, those still in the read buffer, the lines handed
      to Parse_Request, and whether the connection is open. */
  datatype In = In(done: seq<byte>, buf: seq<byte>, delivered: seq<Line>, status: Status) {
    /** Everything read so far. */
    function Received(): seq<byte> { done + buf }
  }

  const EMPTY := In([], [], [], Open)

  /** Some bytes arrive, or one command is taken from the buffer; `accepted` is
      the answer of Parse_Request to that command. */
  datatype Action = Chunk(bytes: seq<byte>) | Command(accepted: bool)

  function Receive(s: In, bytes: seq<byte>): In {
    if |s.buf| >= READBUFFER_LEN then s.(status := Overflow)
    else s.(buf := s.buf + bytes)
  }

  /** One round of the loop in `Conn_Process_Buffer`. */
  function Take(s: In, accepted: bool): In {
    var v := Visible(s.buf);
    var e := FirstEol(v);
    if e == |v| then s
    else
      var l := FirstLine(v);
      if |l| > COMMAND_LEN - 1 then s.(status := TooLong)
      else if e > 0 && !accepted then s.(delivered := s.delivered + [v[..e]], status := Rejected)
      else In(s.done + l, s.buf[|l|..], s.delivered + Kept(v[..e]), Open)
  }

  /** The same with the end of line given. */
  function TakeAt(s: In, ptr: nat, delta: nat, accepted: bool): In
    requires ptr + delta <= |s.buf|
  {
    var len := ptr + delta;
    if len > COMMAND_LEN - 1 then s.(status := TooLong)
    else if ptr > 0 && !accepted then s.(delivered := s.delivered + [s.buf[..ptr]], status := Rejected)
    else In(s.done + s.buf[..len], s.buf[len..], s.delivered + Kept(s.buf[..ptr]), Open)
  }

  lemma TakenAt(s: In, accepted: bool)
    requires var v := Visible(s.buf); FirstEol(v) < |v|
    ensures var v := Visible(s.buf); var e := FirstEol(v);
            e + Delta(v, e) <= |s.buf| && TakeAt(s, e, Delta(v, e), accepted) == Take(s, accepted)
  {
    var v := Visible(s.buf);
    assert FirstLine(v) == s.buf[..|FirstLine(v)|] && v[..FirstEol(v)] == s.buf[..FirstEol(v)];
  }

  /** A whole line waits in the buffer. */
  predicate Ready(s: In) { var v := Visible(s.buf); FirstEol(v) < |v| }

  function Act(s: In, a: Action): In {
    if s.status != Open then s
    else match a case Chunk(bytes) => Receive(s, bytes) case Command(accepted) => Take(s, accepted)
  }

  function Run(s: In, actions: seq<Action>): In
    decreases actions
  {
    if actions == [] then s else Run(Act(s, actions[0]), actions[1..])
  }

  lemma {:induction false} RunAppend(s: In, a: seq<Action>, b: seq<Action>)
    ensures Run(s, a + b) == Run(Run(s, a), b)
    decreases a
  {
    if a == [] {
      assert a + b == b;
    } else {
      assert (a + b)[1..] == a[1..] + b;
      RunAppend(Act(s, a[0]), a[1..], b);
    }
  }

  // ------------------------------------------------------------ invariant

  /** What was consumed is complete lines without NUL, and those lines were
      handed out. */
  predicate InStep(s: In) {
    0 !in s.done && Complete(s.done) && s.delivered == Lines.Of(s.done)
  }

  /** All lines of the stream so far, up to a NUL. */
  function Due(s: In): seq<Line> { Lines.Of(Visible(s.Received())) }

  /** The next line, with its end of line, does not fit. */
  predicate Refused(s: In) {
    var v := Visible(s.buf);
    FirstEol(v) < |v| && FirstEol(v) + Delta(v, FirstEol(v)) > COMMAND_LEN - 1
  }

  predicate Sound(s: In) {
    && (s.status != Rejected ==> InStep(s))
    && s.delivered <= Due(s)
    && (s.status == TooLong ==> Refused(s))
    && forall l :: l in s.delivered ==> |l| < COMMAND_LEN - 1
  }

  /** Handed out plus still buffered is all there is. */
  lemma InStepDue(s: In)
    requires InStep(s)
    ensures s.delivered + Lines.Of(Visible(s.buf)) == Due(s)
  {
    VisibleAppend(s.done, s.buf);
    OfAppend(s.done, Visible(s.buf));
  }

  /** One more complete line consumed and handed out. */
  lemma ConsumedMore(s: In, l: seq<byte>, t: In)
    requires InStep(s) && Complete(l) && l != [] && 0 !in l
    requires t.done == s.done + l && t.delivered == s.delivered + Lines.Of(l)
    ensures InStep(t)
  {
    OfAppend(s.done, l);
    CompleteAppend(s.done, l);
  }

  lemma CompleteAppend(a: seq<byte>, b: seq<byte>)
    requires 0 !in a && 0 !in b && b != [] && Complete(b)
    ensures 0 !in a + b && Complete(a + b)
  {
    assert (a + b)[|a + b| - 1] == b[|b| - 1];
  }

  lemma TakeInStep(s: In, accepted: bool)
    requires InStep(s) && Take(s, accepted).status == Open
    ensures InStep(Take(s, accepted))
  {
    var v := Visible(s.buf);
    if FirstEol(v) < |v| {
      OfFirstLine(v);
      ConsumedMore(s, FirstLine(v), Take(s, accepted));
    }
  }

  /** The line a closing command is about was due next. */
  lemma NextDue(s: In)
    requires InStep(s)
    requires var v := Visible(s.buf); 0 < FirstEol(v) < |v|
    ensures var v := Visible(s.buf); s.delivered + [v[..FirstEol(v)]] <= Due(s)
  {
    var v := Visible(s.buf);
    InStepDue(s);
    assert Lines.Of(v)[0] == v[..FirstEol(v)];
  }

  lemma TakeSound(s: In, accepted: bool)
    requires s.status == Open && Sound(s)
    ensures Sound(Take(s, accepted))
  {
    var t := Take(s, accepted);
    if t.status == Open {
      TakeInStep(s, accepted);
      InStepDue(t);
    } else {
      NextDue(s);
      assert Due(t) == Due(s);
    }
  }

  /** What was refused is the next line due, and it has 511 bytes or more. */
  lemma RefusedLong(s: In)
    requires InStep(s) && Refused(s)
    ensures |s.delivered| < |Due(s)| && |Due(s)[|s.delivered|]| == FirstEol(Visible(s.buf)) >= COMMAND_LEN - 2
  {
    NextDue(s);
    var v := Visible(s.buf);
    var d := s.delivered + [v[..FirstEol(v)]];
    assert d[|s.delivered|] == Due(s)[|s.delivered|];
  }

  lemma ReceiveSound(s: In, bytes: seq<byte>)
    requires s.status == Open && Sound(s)
    ensures Sound(Receive(s, bytes))
  {
    InStepDue(Receive(s, bytes));
  }

  lemma {:induction false} RunSound(s: In, actions: seq<Action>)
    requires Sound(s)
    ensures Sound(Run(s, actions))
    decreases actions
  {
    if actions != [] {
      if s.status == Open {
        match actions[0]
        case Chunk(bytes) => ReceiveSound(s, bytes);
        case Command(accepted) => TakeSound(s, accepted);
      }
      RunSound(Act(s, actions[0]), actions[1..]);
    }
  }

  /** Chunk independence: however the stream is cut into reads and whenever
      commands are taken, what was handed out and what still waits in the buffer
      are together exactly the lines of the stream, in order; a connection is
      only ever closed as too long because the next line has 511 bytes or more, and
      no line of 512 bytes or more is ever handed out. */
  lemma ChunkIndependence(actions: seq<Action>)
    ensures var s := Run(EMPTY, actions);
            && s.delivered <= Due(s)
            && (s.status == Open ==> s.delivered + Lines.Of(Visible(s.buf)) == Due(s))
            && (s.status == TooLong ==> |s.delivered| < |Due(s)| && |Due(s)[|s.delivered|]| >= 511)
            && (forall l :: l in s.delivered ==> |l| <= 511)
  {
    RunSound(EMPTY, actions);
    var s := Run(EMPTY, actions);
    if s.status == Open { InStepDue(s); }
    if s.status == TooLong { RefusedLong(s); }
  }

  /** Two drained readers of the same stream have handed out the same lines. */
  lemma SameStreamSameLines(a: seq<Action>, b: seq<Action>)
    requires var s, t := Run(EMPTY, a), Run(EMPTY, b);
             && s.status == Open && t.status == Open && s.Received() == t.Received()
             && Lines.Of(Visible(s.buf)) == [] && Lines.Of(Visible(t.buf)) == []
    ensures Run(EMPTY, a).delivered == Run(EMPTY, b).delivered
  {
    ChunkIndependence(a);
    ChunkIndependence(b);
  }

  /** Reads of at most READBUFFER_LEN bytes keep the buffer below twice that. */
  lemma {:induction false} BufferBound(s: In, actions: seq<Action>)
    requires |s.buf| < 2 * READBUFFER_LEN
    requires forall i :: 0 <= i < |actions| && actions[i].Chunk? ==> |actions[i].bytes| <= READBUFFER_LEN
    ensures |Run(s, actions).buf| < 2 * READBUFFER_LEN
    decreases actions
  {
    if actions != [] { BufferBound(Act(s, actions[0]), actions[1..]); }
  }

  // ------------------------------------------------------- as it is coded

  /** A connection's reader. `done` and `view` are history: the bytes consumed
      and, while the connection is open, the contents of the buffer. */
  class Reader {
    const rbuf: Array
    var delivered: seq<Line>
    var status: Status
    ghost var done: seq<byte>
    ghost var view: seq<byte>

    ghost predicate Valid()
      reads this, rbuf, rbuf.mem
    {
      rbuf.Valid() && (status == Open ==> rbuf.Spare() && view == rbuf.Contents())
    }

    ghost function State(): In
      reads this
    {
      In(done, view, delivered, status)
    }

    constructor ()
      ensures Valid() && State() == EMPTY && fresh(rbuf)
    {
      rbuf := new Array();
      delivered, status, done, view := [], Open, [], [];
    }

    /** Terminate the buffer with a NUL that is not counted and look for the
        first end of line. */
    method Locate() returns (ptr: int, delta: nat)
      requires Valid() && status == Open && rbuf.used > 0
      modifies rbuf, rbuf.mem
      ensures Valid() && rbuf.mem == old(rbuf.mem) && rbuf.used == old(rbuf.used)
      ensures var v := Visible(view);
              if FirstEol(v) == |v| then ptr < 0 else ptr == FirstEol(v) && delta == Delta(v, ptr)
    {
      var ok := rbuf.Cat0Temporary(true);
      var text := Visible(rbuf.mem[..rbuf.used]);
      EndOfLineIsFirst(text);
      var r := EndOfLine(text);
      return r.0, r.1;
    }

    /** Cut the line at `ptr` in place; the parser gets the string before it. */
    method Cut(ptr: nat) returns (line: Line)
      requires Valid() && status == Open && ptr < |Visible(view)|
      modifies rbuf.mem
      ensures rbuf.Valid() && rbuf.Contents() == view[ptr := 0]
      ensures line == view[..ptr]
    {
      rbuf.Put(ptr, 0);
      CutInPlace(view, ptr);
      line := Visible(rbuf.mem[..rbuf.used]);
      assert Visible(view)[..ptr] == view[..ptr];
    }

    /** Move the rest of the buffer down. */
    method Drop(len: nat)
      requires rbuf.Valid() && rbuf.Spare() && status == Open && 0 < len <= |view|
      requires |rbuf.Contents()| == |view| && rbuf.Contents()[len..] == view[len..]
      modifies this`done, this`view, rbuf, rbuf.mem
      ensures Valid() && rbuf.mem == old(rbuf.mem)
      ensures done == old(done) + old(view)[..len] && view == old(view)[len..]
    {
      done, view := done + view[..len], view[len..];
      rbuf.MoveLeft(len);
    }

    /** The line ending at `ptr` is refused, skipped or handed out. */
    method Handle(ptr: nat, delta: nat, accepted: bool)
      requires Valid() && status == Open
      requires ptr < |Visible(view)| && 0 < delta && ptr + delta <= |view|
      modifies this, rbuf, rbuf.mem
      ensures Valid() && State() == TakeAt(old(State()), ptr, delta, accepted) && rbuf.mem == old(rbuf.mem)
    {
      var len := ptr + delta;
      var line := Cut(ptr);
      if len > COMMAND_LEN - 1 {
        status := TooLong;
        return;
      }
      if len > delta {
        delivered := delivered + [line];
        if !accepted {
          status := Rejected;
          return;
        }
      }
      Drop(len);
    }

    /** One round of the command loop. */
    method Round(accepted: bool) returns (len: nat)
      requires Valid() && status == Open && rbuf.used > 0
      modifies this, rbuf, rbuf.mem
      ensures Valid() && State() == Take(old(State()), accepted) && rbuf.mem == old(rbuf.mem)
      ensures len == 0 <==> !Ready(old(State()))
      ensures status == Open ==> len == |done| - |old(done)|
    {
      var ptr, delta := Locate();
      if ptr < 0 {
        return 0;
      }
      TakenAt(State(), accepted);
      Handle(ptr, delta, accepted);
      len := ptr + delta;
    }

    /** One round more of a run. */
    method Turn(accepted: bool, ghost start: In, ghost actions: seq<Action>) returns (len: nat)
      requires Valid() && status == Open && rbuf.used > 0 && State() == Run(start, actions)
      modifies this, rbuf, rbuf.mem
      ensures Valid() && rbuf.mem == old(rbuf.mem)
      ensures len == 0 ==> State() == old(State()) && !Ready(State())
      ensures len > 0 ==> State() == Run(start, actions + [Command(accepted)])
      ensures status == Open ==> len == |done| - |old(done)|
    {
      ghost var before := State();
      len := Round(accepted);
      RunSnoc(start, actions, Command(accepted), before);
    }

    /** `Conn_Process_Buffer`: up to `maxcmd` commands, none while the client is
        under a penalty; `delayed` and `parse` answer for each command. It stops
        early only for a penalty, a closed connection or want of a line, and the
        result counts the bytes consumed unless processing was cut short. */
    method ProcessBuffer(maxcmd: nat, delayed: nat -> bool, parse: nat -> bool)
      returns (processed: nat, ghost actions: seq<Action>)
      requires Valid() && status == Open
      modifies this, rbuf, rbuf.mem
      ensures Valid() && State() == Run(old(State()), actions) && rbuf.mem == old(rbuf.mem)
      ensures AreCommands(actions, delayed, parse) && |actions| <= maxcmd
      ensures status == Open && |actions| < maxcmd ==> delayed(|actions|) || !Ready(State())
      ensures processed == if status == Open && !(|actions| < maxcmd && delayed(|actions|))
                           then |done| - |old(done)| else 0
    {
      processed, actions := 0, [];
      var i := 0;
      while i < maxcmd
        invariant Valid() && status == Open && rbuf.mem == old(rbuf.mem)
        invariant State() == Run(old(State()), actions)
        invariant i == |actions| <= maxcmd && AreCommands(actions, delayed, parse)
        invariant processed == |done| - |old(done)|
      {
        if delayed(i) {
          return 0, actions;
        }
        if rbuf.used == 0 {
          break;
        }
        var len := Turn(parse(i), old(State()), actions);
        if len == 0 {
          break;
        }
        actions := actions + [Command(parse(i))];
        if status != Open {
          return 0, actions;
        }
        processed := processed + len;
        i := i + 1;
      }
    }

    /** `Read_Request`: new bytes are appended unless the buffer is full, then
        commands are processed. */
    method ReadRequest(bytes: seq<byte>, maxcmd: nat, delayed: nat -> bool, parse: nat -> bool)
      returns (ghost actions: seq<Action>)
      requires Valid() && status == Open && 0 < |bytes| <= READBUFFER_LEN
      modifies this, rbuf, rbuf.mem
      ensures Valid() && State() == Run(old(State()), [Chunk(bytes)] + actions)
      ensures AreCommands(actions, delayed, parse) && |actions| <= maxcmd
      ensures status == Open && |actions| < maxcmd ==> delayed(|actions|) || !Ready(State())
    {
      if rbuf.used >= READBUFFER_LEN {
        status := Overflow;
        RunCons(old(State()), Chunk(bytes), []);
        return [];
      }
      var ok := rbuf.CatB(bytes, true);
      view := view + bytes;
      var processed;
      processed, actions := ProcessBuffer(maxcmd, delayed, parse);
      RunCons(old(State()), Chunk(bytes), actions);
    }
  }

  /** The commands taken by rounds 0, 1, 2 and so on, none of them delayed. */
  predicate AreCommands(actions: seq<Action>, delayed: nat -> bool, parse: nat -> bool) {
    forall k :: 0 <= k < |actions| ==> actions[k] == Command(parse(k)) && !delayed(k)
  }

  lemma RunCons(s: In, a: Action, rest: seq<Action>)
    ensures Run(s, [a] + rest) == Run(Act(s, a), rest)
  {
    assert ([a] + rest)[1..] == rest;
  }

  lemma RunSnoc(s: In, actions: seq<Action>, a: Action, t: In)
    requires Run(s, actions) == t
    ensures Run(s, actions + [a]) == Act(t, a)
  {
    RunAppend(s, actions, [a]);
    RunCons(t, a, []);
    assert [a] + [] == [a];
  }

  /** The NUL written over the end of line ends the string right there. */
  lemma CutInPlace(buf: seq<byte>, e: nat)
    requires e < |Visible(buf)|
    ensures Visible(buf[e := 0]) == Visible(buf)[..e]
  {
    var v := Visible(buf);
    var b := buf[e := 0];
    assert b == v[..e] + ([0] + buf[e + 1..]);
    VisibleAppend(v[..e], [0] + buf[e + 1..]);
    assert Visible([0] + buf[e + 1..]) == [];
    assert v[..e] + [] == v[..e];
  }

  /** The read buffer is given up exactly when 2048 bytes wait in it and more are
      there to be read. */
  lemma OverflowExact(s: In, a: Action)
    requires s.status == Open
    ensures Act(s, a).status == Overflow <==> a.Chunk? && |s.buf| >= 2048
  {}

  /** What becomes of the next line: together with its end of line, which is one
      byte or CR LF, it has at most 512 bytes or the connection is given up; an
      empty line is skipped; any other is handed out, and if it is rejected that
      closes the connection. */
  lemma TakeExact(s: In, text: seq<byte>, eol: seq<byte>, rest: seq<byte>, accepted: bool)
    requires s.status == Open && s.buf == text + eol + rest && 0 !in text && CR !in text && LF !in text
    requires eol == [CR, LF] || (eol == [LF]) || (eol == [CR] && (rest == [] || rest[0] != LF))
    ensures var t := Take(s, accepted);
            if |text| + |eol| > 512 then t == s.(status := TooLong)
            else if text == [] then t == s.(done := s.done + eol, buf := rest)
            else if !accepted then t.status == Rejected && t.delivered == s.delivered + [text]
            else t == In(s.done + (text + eol), rest, s.delivered + [text], Open)
  {
    FirstIs(s.buf, text, eol, rest);
  }

  lemma FirstIs(buf: seq<byte>, text: seq<byte>, eol: seq<byte>, rest: seq<byte>)
    requires buf == text + eol + rest && 0 !in text && CR !in text && LF !in text
    requires eol == [CR, LF] || (eol == [LF]) || (eol == [CR] && (rest == [] || rest[0] != LF))
    ensures var v := Visible(buf);
            FirstEol(v) == |text| < |v| && v[..|text|] == text && FirstLine(v) == text + eol && buf[|text + eol|..] == rest
  {
    var v, n := Visible(buf), |text|;
    forall i | 0 <= i < n + |eol| ensures buf[i] != 0 { assert i < n ==> buf[i] == text[i]; }
    assert |v| >= n + |eol|;
    forall i | 0 <= i < n ensures !Eol(v[i]) { assert v[i] == text[i]; }
    FirstEolIs(v, n);
    assert v[n] == eol[0] && (|eol| == 2 ==> v[n + 1] == LF);
    assert v[..n + |eol|] == text + eol;
  }
}
