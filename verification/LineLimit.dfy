/** The length limit of a request, exactly: which streams it treats differently
    depending on how they are cut into reads. */
module LineLimit {
  import opened Buffer
  import opened Lines
  import opened Inbound

  /** Nothing more comes of a stream: no line waits, or one was refused. */
  predicate Settled(s: In) { (s.status == Open && !Ready(s)) || s.status == TooLong }

  /** Behind complete lines of at most 511 bytes, at n, stand 511 bytes and CR LF. */
  predicate SplitsAt(x: seq<byte>, n: nat) {
    && n + 513 <= |x| && 0 !in x[..n + 513]
    && Complete(x[..n]) && ShortLines(x[..n])
    && (forall i :: n <= i < n + 511 ==> !Eol(x[i]))
    && x[n + 511] == CR && x[n + 512] == LF
  }

  ghost predicate Splits(x: seq<byte>) { exists n :: SplitsAt(x, n) }

  /** Of two readers of one stream x, each somewhere on its way, one refused a
      line the other has handed out. */
  predicate Conflict(x: seq<byte>, s: In, t: In) {
    s.Received() <= x && t.Received() <= x && s.status == TooLong && |s.delivered| < |t.delivered|
  }

  /** Reads as the program makes them: up to the size of its read buffer. */
  predicate Bounded(actions: seq<Action>) {
    forall i :: 0 <= i < |actions| && actions[i].Chunk? ==> |actions[i].bytes| <= READBUFFER_LEN
  }

  ghost predicate Differ(x: seq<byte>, a: seq<Action>, b: seq<Action>) {
    Bounded(a) && Bounded(b) && Conflict(x, Run(EMPTY, a), Run(EMPTY, b))
  }

  ghost predicate DependsOnCut(x: seq<byte>) { exists a, b :: Differ(x, a, b) }

  // ------------------------------------------------------- only then

  /** A line refused here and handed out there has 511 bytes and CR LF, whatever
      the sizes of the reads. */
  lemma DifferSplits(x: seq<byte>, a: seq<Action>, b: seq<Action>)
    requires Conflict(x, Run(EMPTY, a), Run(EMPTY, b))
    ensures SplitsAt(x, |Run(EMPTY, a).done|)
  {
    RunSound(EMPTY, a);
    RunSound(EMPTY, b);
    ConflictSplits(x, Run(EMPTY, a), Run(EMPTY, b));
  }

  lemma ConflictSplits(x: seq<byte>, s: In, t: In)
    requires Sound(s) && Sound(t) && Conflict(x, s, t)
    ensures SplitsAt(x, |s.done|)
  {
    RefusedLong(s);
    var k := |s.delivered|;
    DueIn(x, s);
    DueIn(x, t);
    assert t.delivered[k] == Due(t)[k] == Due(s)[k] && t.delivered[k] in t.delivered;
    SplitHere(s);
    SplitsLater(s.Received(), x, |s.done|);
  }

  /** What is due of a prefix is due of the stream. */
  lemma DueIn(x: seq<byte>, s: In)
    requires s.Received() <= x
    ensures Due(s) <= Lines.Of(Visible(x))
  {
    var y := s.Received();
    assert x == y + x[|y|..];
    VisiblePrefix(y, x[|y|..]);
    var v, w := Visible(y), Visible(x);
    assert w == v + w[|v|..];
    OfPrefix(v, w[|v|..]);
  }

  lemma {:induction false} VisiblePrefix(a: seq<byte>, b: seq<byte>)
    ensures Visible(a) <= Visible(a + b)
  {
    if a != [] && a[0] != 0 {
      assert (a + b)[1..] == a[1..] + b;
      VisiblePrefix(a[1..], b);
    }
  }

  lemma SplitsLater(y: seq<byte>, x: seq<byte>, n: nat)
    requires y <= x && SplitsAt(y, n)
    ensures SplitsAt(x, n)
  {
    assert x[..n + 513] == y[..n + 513] && x[..n] == y[..n];
  }

  lemma SplitHere(s: In)
    requires InStep(s) && Refused(s) && FirstEol(Visible(s.buf)) == 511
    requires forall l :: l in s.delivered ==> |l| <= 511
    ensures SplitsAt(s.Received(), |s.done|)
  {
    var n, v, x := |s.done|, Visible(s.buf), s.Received();
    assert x[..n] == s.done;
    assert forall i :: 0 <= i < |v| ==> v[i] == s.buf[i] == x[n + i];
    assert v[511] == CR && v[512] == LF;
    forall i | 0 <= i < n + 513 ensures x[i] != 0 {
      if i < n { assert x[i] in s.done; } else { assert v[i - n] in v; }
    }
  }

  /** Streams without such a line are read alike, however they are cut. */
  lemma SettledAgree(a: seq<Action>, b: seq<Action>)
    requires var s, t := Run(EMPTY, a), Run(EMPTY, b);
             Settled(s) && Settled(t) && s.Received() == t.Received() && !Splits(s.Received())
    ensures var s, t := Run(EMPTY, a), Run(EMPTY, b); s.delivered == t.delivered && s.status == t.status
  {
    var s, t := Run(EMPTY, a), Run(EMPTY, b);
    SettledLength(a);
    SettledLength(b);
    if |s.delivered| < |t.delivered| {
      DifferSplits(s.Received(), a, b);
    } else if |t.delivered| < |s.delivered| {
      DifferSplits(s.Received(), b, a);
    }
  }

  /** An open settled reader has handed out everything, a closed one less. */
  lemma SettledLength(a: seq<Action>)
    requires Settled(Run(EMPTY, a))
    ensures var s := Run(EMPTY, a);
            s.delivered <= Due(s) && (s.status == Open <==> |s.delivered| == |Due(s)|)
  {
    var s := Run(EMPTY, a);
    RunSound(EMPTY, a);
    if s.status == Open {
      InStepDue(s);
      OfNoEol(Visible(s.buf));
    } else {
      RefusedLong(s);
    }
  }

  // ------------------------------------------------------ and then it does

  /** A command on a line that is the whole buffer, with one byte at its end. */
  lemma TakeLine(s: In, t: seq<byte>, b: byte)
    requires s.status == Open && s.buf == t + [b] && Eol(b) && 0 !in t && |t| <= 511
    requires forall i :: 0 <= i < |t| ==> !Eol(t[i])
    ensures Take(s, true) == In(s.done + (t + [b]), [], s.delivered + Kept(t), Open)
  {
    var w := t + [b];
    VisibleAll(w);
    FirstEolIs(w, |t|);
    assert w[..|t|] == t && FirstLine(w) == w;
  }

  lemma VisibleAll(w: seq<byte>)
    requires 0 !in w
    ensures Visible(w) == w
  {
    VisibleAppend(w, []);
    assert w + [] == w;
  }

  /** The reader that took another line with one byte at its end. */
  function After(s: In, line: seq<byte>, b: byte): In {
    In(s.done + (line + [b]), [], s.delivered + Kept(line), Open)
  }

  lemma ReadLine(s: In, line: seq<byte>, b: byte)
    requires s.status == Open && s.buf == [] && 0 !in line && Eol(b) && |line| <= 511
    requires forall i :: 0 <= i < |line| ==> !Eol(line[i])
    ensures Act(Act(s, Chunk(line + [b])), Command(true)) == After(s, line, b)
  {
    var u := s.(buf := line + [b]);
    assert s.buf + (line + [b]) == line + [b];
    TakeLine(u, line, b);
  }

  lemma ReadLineThen(s: In, line: seq<byte>, b: byte, rest: seq<Action>) returns (actions: seq<Action>)
    requires s.status == Open && s.buf == [] && 0 !in line && Eol(b) && |line| <= 511
    requires Bounded(rest) && forall i :: 0 <= i < |line| ==> !Eol(line[i])
    ensures Run(s, actions) == Run(After(s, line, b), rest) && Bounded(actions)
  {
    var x, y := Chunk(line + [b]), Command(true);
    actions := [x, y] + rest;
    RunCons(s, x, [y] + rest);
    assert [x] + ([y] + rest) == [x, y] + rest;
    RunCons(Act(s, x), y, rest);
    ReadLine(s, line, b);
  }

  /** Complete lines of at most 511 bytes can be read: line by line, cut right
      behind the first byte of each line end, with a command after each. */
  lemma {:induction false} DripRun(s: In, p: seq<byte>) returns (actions: seq<Action>, t: In)
    requires s.status == Open && s.buf == []
    requires 0 !in p && Complete(p) && ShortLines(p)
    ensures Run(s, actions) == t && t.status == Open && t.buf == [] && t.done == s.done + p && Bounded(actions)
    decreases |p|
  {
    if p == [] {
      actions, t := [], s;
      assert s.done + [] == s.done;
    } else {
      var line, b, rest := FirstPiece(p);
      var more;
      more, t := DripRun(After(s, line, b), rest);
      actions := ReadLineThen(s, line, b, more);
      Assoc(s.done, line + [b], rest);
    }
  }

  lemma Assoc(a: seq<byte>, b: seq<byte>, c: seq<byte>)
    ensures a + b + c == a + (b + c)
  {}

  predicate ShortLines(p: seq<byte>) { forall l :: l in Lines.Of(p) ==> |l| <= 511 }

  lemma FirstPiece(p: seq<byte>) returns (line: seq<byte>, b: byte, rest: seq<byte>)
    requires p != [] && 0 !in p && Complete(p) && ShortLines(p)
    ensures p == line + [b] + rest && Eol(b) && |line| <= 511 && 0 !in line && 0 !in rest
    ensures forall i :: 0 <= i < |line| ==> !Eol(line[i])
    ensures Complete(rest) && ShortLines(rest)
  {
    CompleteTail(p);
    var e := FirstEol(p);
    line, b, rest := p[..e], p[e], p[e + 1..];
    FirstShort(p);
    Pieces(p, e);
  }

  lemma Pieces(p: seq<byte>, e: nat)
    requires e < |p| && 0 !in p
    ensures p == p[..e] + [p[e]] + p[e + 1..] && 0 !in p[..e] && 0 !in p[e + 1..]
  {
    assert forall c :: c in p[..e] ==> c in p;
    assert forall c :: c in p[e + 1..] ==> c in p;
  }

  lemma FirstShort(p: seq<byte>)
    requires FirstEol(p) < |p| && ShortLines(p)
    ensures FirstEol(p) <= 511 && ShortLines(p[FirstEol(p) + 1..])
  {
    var e := FirstEol(p);
    OfStep(p, []);
    if e > 0 { assert p[..e] in Lines.Of(p); }
    assert forall l :: l in Lines.Of(p[e + 1..]) ==> l in Lines.Of(p);
  }

  lemma RunTwo(s: In, actions: seq<Action>, x: Action, y: Action)
    ensures Run(s, actions + [x, y]) == Act(Act(Run(s, actions), x), y)
  {
    RunSnoc(s, actions, x, Run(s, actions));
    RunSnoc(s, actions + [x], y, Act(Run(s, actions), x));
    assert actions + [x] + [y] == actions + [x, y];
  }

  /** Both ends of line in the buffer: 513 bytes, refused. */
  lemma ReadLong(s: In, line: seq<byte>)
    requires s.status == Open && s.buf == [] && 0 !in line && |line| == 511
    requires forall i :: 0 <= i < |line| ==> !Eol(line[i])
    ensures Act(Act(s, Chunk(line + [CR, LF])), Command(true)) == s.(buf := line + [CR, LF], status := TooLong)
  {
    var w := line + [CR, LF];
    assert s.buf + w == w;
    VisibleAll(w);
    FirstEolIs(w, 511);
  }

  /** Behind the same lines, read as one piece: refused. */
  lemma Together(p: seq<Action>, s: In, line: seq<byte>) returns (a: seq<Action>)
    requires Run(EMPTY, p) == s && s.status == Open && s.buf == [] && 0 !in line && |line| == 511
    requires Bounded(p) && forall i :: 0 <= i < |line| ==> !Eol(line[i])
    ensures Run(EMPTY, a) == s.(buf := line + [CR, LF], status := TooLong) && Bounded(a)
  {
    a := p + [Chunk(line + [CR, LF]), Command(true)];
    ReadLong(s, line);
    RunTwo(EMPTY, p, Chunk(line + [CR, LF]), Command(true));
  }

  /** Cut between CR and LF: handed out. */
  lemma Apart(p: seq<Action>, s: In, line: seq<byte>) returns (b: seq<Action>)
    requires Run(EMPTY, p) == s && s.status == Open && s.buf == [] && 0 !in line && |line| == 511
    requires Bounded(p) && forall i :: 0 <= i < |line| ==> !Eol(line[i])
    ensures Run(EMPTY, b) == After(s, line, CR) && Bounded(b)
  {
    b := p + [Chunk(line + [CR]), Command(true)];
    ReadLine(s, line, CR);
    RunTwo(EMPTY, p, Chunk(line + [CR]), Command(true));
  }

  lemma SplitsDiffer(x: seq<byte>, n: nat) returns (a: seq<Action>, b: seq<Action>)
    requires SplitsAt(x, n)
    ensures Differ(x, a, b)
  {
    var line := x[n..n + 511];
    Inside(x, n);
    var d, s := DripRun(EMPTY, x[..n]);
    assert [] + x[..n] == x[..n];
    a := Together(d, s, line);
    b := Apart(d, s, line);
    OnTheWay(x, n, s);
  }

  /** The bytes in front of the line and what it ends in. */
  lemma Inside(x: seq<byte>, n: nat)
    requires SplitsAt(x, n)
    ensures var l := x[n..n + 511]; 0 !in l && forall i :: 0 <= i < 511 ==> !Eol(l[i])
    ensures 0 !in x[..n]
  {
    var l, y := x[n..n + 511], x[..n + 513];
    assert forall i :: 0 <= i < 511 ==> l[i] == x[n + i];
    forall c | c in l || c in x[..n] ensures c in y {
      assert l == y[n..n + 511] && x[..n] == y[..n];
    }
  }

  lemma OnTheWay(x: seq<byte>, n: nat, s: In)
    requires SplitsAt(x, n) && s.status == Open && s.buf == [] && s.done == x[..n]
    ensures var line := x[n..n + 511];
            Conflict(x, s.(buf := line + [CR, LF], status := TooLong), After(s, line, CR))
  {
    var line := x[n..n + 511];
    assert x[..n] + (line + [CR, LF]) == x[..n + 513];
    assert x[..n] + (line + [CR]) + [] == x[..n + 512];
  }

  /** Which of two cuts into reads of at most READBUFFER_LEN bytes is taken
      matters for exactly the streams in which, behind acceptable lines, a line of
      511 bytes is ended by CR LF. */
  lemma LimitExact(x: seq<byte>)
    ensures DependsOnCut(x) <==> Splits(x)
  {
    if DependsOnCut(x) {
      var a, b :| Differ(x, a, b);
      DifferSplits(x, a, b);
    }
    if Splits(x) {
      var n :| SplitsAt(x, n);
      var a, b := SplitsDiffer(x, n);
    }
  }

  /** The shortest such stream. */
  lemma LimitDependsOnCut(line: Line)
    requires |line| == 511 && 0 !in line && CR !in line && LF !in line
    ensures DependsOnCut(line + [CR, LF])
  {
    var x := line + [CR, LF];
    OfNoEol([]);
    assert x[..0] == [];
    forall i | 0 <= i < 511 ensures !Eol(x[i]) { assert x[i] in line; }
    assert SplitsAt(x, 0);
    LimitExact(x);
  }
}
