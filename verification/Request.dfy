/** The request line: how `Parse_Request` takes it apart, and which messages
    come out of it as they were written. */
module Request {

  /** Room for arguments in a request. */
  const MAX_ARGS := 15

  datatype Prefix = NoPrefix | From(id: string)

  /** A line is empty, a prefix alone, or a request. */
  datatype Parsed = Ignored | NoCommand | Request(prefix: Prefix, command: string, argv: seq<string>)

  // -------------------------------------------------------------- splitting

  predicate White(c: char) { c == ' ' || c == '\t' || c == '\n' || c == '\r' }

  function TrimLeft(s: string): string
  {
    if s != [] && White(s[0]) then TrimLeft(s[1..]) else s
  }

  function TrimRight(s: string): string
  {
    if s != [] && White(s[|s| - 1]) then TrimRight(s[..|s| - 1]) else s
  }

  /** `ngt_TrimStr` */
  function Trim(s: string): string { TrimRight(TrimLeft(s)) }

  function Skip(s: string): (r: string)
    ensures |r| <= |s|
  {
    if s != [] && s[0] == ' ' then Skip(s[1..]) else s
  }

  /** A text is one token, or a token with spaces and the rest behind it. */
  datatype Piece = Whole | Split(token: string, rest: string)

  function First(s: string): (p: Piece)
    ensures p.Split? ==> |p.token| + |p.rest| < |s|
  {
    if s == [] then Whole
    else if s[0] == ' ' then Split([], Skip(s))
    else
      match First(s[1..])
      case Whole => Whole
      case Split(t, r) => Split([s[0]] + t, r)
  }

  /** The arguments in `s` when n were taken before: a colon starts one that
      goes to the end of the line. */
  function Args(s: string, n: nat): (r: seq<string>)
    ensures r != []
    decreases |s|
  {
    if s != [] && s[0] == ':' then [s[1..]]
    else
      match First(s)
      case Whole => [s]
      case Split(t, r) => if n + 1 >= MAX_ARGS then [t] else [t] + Args(r, n + 1)
  }

  function ParseCommand(prefix: Prefix, s: string): Parsed {
    match First(s)
    case Whole => Request(prefix, s, [])
    case Split(t, r) => Request(prefix, t, Args(r, 0))
  }

  function ParseHead(s: string): Parsed {
    match First(s)
    case Whole => NoCommand
    case Split(t, r) => ParseCommand(From(t), r)
  }

  function Parse(line: string): Parsed {
    var s := Trim(line);
    if s == [] then Ignored
    else if s[0] != ':' then ParseCommand(NoPrefix, s)
    else ParseHead(s[1..])
  }

  // ---------------------------------------------------------------- methods

  lemma {:induction false} TrimLeftAt(s: string, k: nat)
    requires k <= |s| && (forall i :: 0 <= i < k ==> White(s[i])) && (k < |s| ==> !White(s[k]))
    ensures TrimLeft(s) == s[k..]
  {
    if k > 0 { TrimLeftAt(s[1..], k - 1); }
  }

  lemma {:induction false} TrimRightAt(s: string, k: nat)
    requires k <= |s| && (forall i :: k <= i < |s| ==> White(s[i])) && (k > 0 ==> !White(s[k - 1]))
    ensures TrimRight(s) == s[..k]
  {
    if k < |s| {
      TrimRightAt(s[..|s| - 1], k);
      assert s[..|s| - 1][..k] == s[..k];
    } else {
      assert s[..k] == s;
    }
  }

  lemma {:induction false} FirstAt(s: string, k: nat)
    requires k <= |s| && ' ' !in s[..k] && (k < |s| ==> s[k] == ' ')
    ensures First(s) == if k == |s| then Whole else Split(s[..k], Skip(s[k..]))
  {
    if k > 0 {
      assert s[..k] == [s[0]] + s[1..][..k - 1];
      assert s[1..][k - 1..] == s[k..];
      FirstAt(s[1..], k - 1);
    } else {
      assert s[0..] == s;
    }
  }

  lemma {:induction false} SkipAt(s: string, k: nat)
    requires k <= |s| && (forall i :: 0 <= i < k ==> s[i] == ' ') && (k < |s| ==> s[k] != ' ')
    ensures Skip(s) == s[k..]
  {
    if k > 0 { SkipAt(s[1..], k - 1); }
  }

  /** `ngt_TrimStr` */
  method TrimStr(s: string) returns (r: string)
    ensures r == Trim(s)
  {
    var start: nat := 0;
    while start < |s| && White(s[start])
      invariant start <= |s| && forall i :: 0 <= i < start ==> White(s[i])
    {
      start := start + 1;
    }
    TrimLeftAt(s, start);
    var t := s[start..];
    var end: nat := |t|;
    while end > 0 && White(t[end - 1])
      invariant end <= |t| && forall i :: end <= i < |t| ==> White(t[i])
    {
      end := end - 1;
    }
    TrimRightAt(t, end);
    return t[..end];
  }

  /** strchr() for a space, the NUL written over it, and the spaces skipped
      behind it. */
  method NextToken(s: string) returns (p: Piece)
    ensures p == First(s)
  {
    var ptr: nat := 0;
    while ptr < |s| && s[ptr] != ' '
      invariant ptr <= |s| && ' ' !in s[..ptr]
    {
      ptr := ptr + 1;
    }
    FirstAt(s, ptr);
    if ptr == |s| {
      return Whole;
    }
    var rest, k: nat := s[ptr..], 0;
    while k < |rest| && rest[k] == ' '
      invariant k <= |rest| && forall i :: 0 <= i < k ==> rest[i] == ' '
    {
      k := k + 1;
    }
    SkipAt(rest, k);
    return Split(s[..ptr], rest[k..]);
  }

  /** One turn of the loop over the arguments. */
  lemma Turn(goal: seq<string>, argv: seq<string>, s: string)
    requires goal == argv + Args(s, |argv|)
    ensures s != [] && s[0] == ':' ==> goal == argv + [s[1..]]
    ensures (s == [] || s[0] != ':') && First(s).Whole? ==> goal == argv + [s]
    ensures (s == [] || s[0] != ':') && First(s).Split? ==>
              var next := argv + [First(s).token];
              goal == if |next| > 14 then next else next + Args(First(s).rest, |next|)
  {
    if First(s).Split? {
      var more := Args(First(s).rest, |argv| + 1);
      assert argv + ([First(s).token] + more) == argv + [First(s).token] + more;
    }
  }

  /** The loop over the arguments. */
  method SplitArgs(s: string) returns (argv: seq<string>)
    ensures argv == Args(s, 0)
  {
    argv := [];
    var start := s;
    ghost var goal := Args(s, 0);
    while true
      invariant goal == argv + Args(start, |argv|)
      decreases |start|
    {
      Turn(goal, argv, start);
      if start != [] && start[0] == ':' {
        argv := argv + [start[1..]];
        return;
      }
      var p := NextToken(start);
      if p.Whole? {
        argv := argv + [start];
        return;
      }
      argv := argv + [p.token];
      if |argv| > 14 {
        return;
      }
      start := p.rest;
    }
  }

  /** `Parse_Request` up to the checks of prefix, command and arguments. */
  method ParseRequest(line: string) returns (r: Parsed)
    ensures r == Parse(line)
  {
    var start := TrimStr(line);
    if start == [] {
      return Ignored;
    }
    var prefix := NoPrefix;
    if start[0] == ':' {
      var p := NextToken(start[1..]);
      if p.Whole? {
        return NoCommand;
      }
      prefix, start := From(p.token), p.rest;
    }
    var p := NextToken(start);
    if p.Whole? {
      return Request(prefix, start, []);
    }
    var argv := SplitArgs(p.rest);
    return Request(prefix, p.token, argv);
  }

  // ------------------------------------------------------------ round trips

  /** The arguments with a space between any two, as they are printed. */
  function Joined(args: seq<string>): string
    requires args != []
  {
    if |args| == 1 then args[0] else args[0] + (" " + Joined(args[1..]))
  }

  lemma JoinedFirst(a: string, rest: seq<string>)
    requires rest != []
    ensures Joined([a] + rest) == a + (" " + Joined(rest))
    ensures rest[0] != [] ==> Joined(rest) != [] && Joined(rest)[0] == rest[0][0]
    ensures rest[0] == [] && |rest| > 1 ==> Joined(rest) != [] && Joined(rest)[0] == ' '
  {
    assert ([a] + rest)[1..] == rest;
  }

  function Text(args: seq<string>): string {
    if args == [] then [] else " " + Joined(args)
  }

  /** A message of a server. */
  function Line(prefix: string, command: string, args: seq<string>): string {
    ":" + prefix + " " + command + Text(args)
  }

  /** An argument that can stand anywhere. */
  predicate Plain(a: string) { a != [] && ' ' !in a && a[0] != ':' }

  predicate AllPlain(args: seq<string>) { forall i :: 0 <= i < |args| ==> Plain(args[i]) }

  /** The line does not end in white space. */
  predicate Ends(s: string) { s != [] && !White(s[|s| - 1]) }

  /** The arguments survive the way through a line. */
  predicate Intact(args: seq<string>) {
    args != [] ==> |args| <= MAX_ARGS && AllPlain(args) && Ends(args[|args| - 1])
  }

  /** A token, with nothing or with more behind it. */
  lemma FirstOf(t: string, s: string)
    requires ' ' !in t
    ensures First(t) == Whole && First(t + (" " + s)) == Split(t, Skip(s))
  {
    FirstAt(t, |t|);
    var u := t + (" " + s);
    assert u[..|t|] == t && u[|t|..] == " " + s && (" " + s)[1..] == s;
    FirstAt(u, |t|);
  }

  lemma ArgsStep(t: string, s: string, n: nat)
    requires Plain(t) && n < MAX_ARGS
    ensures Args(t, n) == [t]
    ensures n + 1 < MAX_ARGS ==> Args(t + (" " + s), n) == [t] + Args(Skip(s), n + 1)
  {
    FirstOf(t, s);
  }

  lemma UpToStep(a: string, rest: seq<string>, r: seq<string>, n: nat)
    requires Plain(a) && n + 1 < MAX_ARGS && rest != [] && rest[0] != [] && rest[0][0] != ' '
    requires Args(Joined(rest), n + 1) == r
    ensures Args(Joined([a] + rest), n) == [a] + r
  {
    JoinedFirst(a, rest);
    ArgsStep(a, Joined(rest), n);
  }

  lemma Consed(args: seq<string>, r: seq<string>)
    requires args != []
    ensures args + r == [args[0]] + (args[1..] + r)
  {}

  /** Plain arguments are read one by one up to a last one. */
  lemma {:induction false} ArgsUpTo(args: seq<string>, last: string, n: nat)
    requires AllPlain(args) && n + |args| < MAX_ARGS && last != [] && last[0] != ' '
    ensures Args(Joined(args + [last]), n) == args + Args(last, n + |args|)
  {
    if args == [] {
      assert Joined([last]) == last;
    } else {
      var a, tail, r := args[0], args[1..], Args(last, n + |args|);
      assert Plain(a) && (tail != [] ==> Plain(tail[0]));
      ArgsUpTo(tail, last, n + 1);
      UpToStep(a, tail + [last], tail + r, n);
      Consed(args, [last]);
      Consed(args, r);
    }
  }

  lemma ArgsPlain(args: seq<string>, last: string)
    requires AllPlain(args) && Plain(last) && |args| < MAX_ARGS
    ensures Args(Joined(args + [last]), 0) == args + [last]
  {
    ArgsUpTo(args, last, 0);
    ArgsStep(last, [], |args|);
  }

  lemma ArgsTrailing(args: seq<string>, x: string)
    requires AllPlain(args) && |args| < MAX_ARGS
    ensures Args(Joined(args + [":" + x]), 0) == args + [x]
  {
    ArgsUpTo(args, ":" + x, 0);
    assert (":" + x)[1..] == x;
  }

  /** Nothing that is read was not there. */
  lemma {:induction false} ArgsSize(s: string, n: nat)
    ensures |Joined(Args(s, n))| <= |s|
    decreases |s|
  {
    var p := First(s);
    if (s == [] || s[0] != ':') && p.Split? && n + 1 < MAX_ARGS {
      ArgsSize(p.rest, n + 1);
      JoinedFirst(p.token, Args(p.rest, n + 1));
    }
  }

  /** At most this many arguments are read. */
  lemma {:induction false} ArgsCount(s: string, n: nat)
    requires n < MAX_ARGS
    ensures n + |Args(s, n)| <= MAX_ARGS
    decreases |s|
  {
    var p := First(s);
    if (s == [] || s[0] != ':') && p.Split? && n + 1 < MAX_ARGS { ArgsCount(p.rest, n + 1); }
  }

  /** A token holds no space, and what follows it no space at its start. */
  lemma {:induction false} FirstSays(s: string)
    ensures First(s).Whole? ==> ' ' !in s
    ensures First(s).Split? ==> ' ' !in First(s).token
  {
    if s != [] && s[0] != ' ' {
      FirstSays(s[1..]);
      assert s == [s[0]] + s[1..];
    }
  }

  /** If the first argument is read as it was written and nothing is lost
      behind it, it is plain and the rest is read as it was written. */
  lemma FirstRead(a: string, j: string, rest: seq<string>, n: nat)
    requires a != [] && rest != [] && |Joined(rest)| == |j|
    requires Args(a + (" " + j), n) == [a] + rest
    ensures Plain(a) && Args(j, n + 1) == rest && (j == [] || j[0] != ' ')
  {
    var s := a + (" " + j);
    assert s[0] == a[0] && s[0] != ':';
    assert ([a] + rest)[0] == a && ([a] + rest)[1..] == rest && |[a] + rest| > 1;
    assert First(s).Split? && First(s).token == a;
    FirstSays(s);
    FirstOf(a, j);
    ArgsSize(Skip(j), n + 1);
  }

  lemma RestRead(args: seq<string>, n: nat)
    requires |args| > 1 && args[0] != [] && args[|args| - 1] != []
    requires Args(Joined(args), n) == args
    ensures Plain(args[0]) && Args(Joined(args[1..]), n + 1) == args[1..] && args[1] != []
  {
    var a, rest := args[0], args[1..];
    assert args == [a] + rest;
    JoinedFirst(a, rest);
    FirstRead(a, Joined(rest), rest, n);
  }

  /** Only plain arguments are read as they were written, but for an empty one
      at either end. */
  lemma {:induction false} ArgsOnly(args: seq<string>, n: nat)
    requires args != [] && args[0] != [] && args[|args| - 1] != []
    requires Args(Joined(args), n) == args
    ensures AllPlain(args)
  {
    if |args| == 1 {
      FirstSays(args[0]);
    } else {
      RestRead(args, n);
      ArgsOnly(args[1..], n + 1);
      forall i | 0 < i < |args| ensures Plain(args[i]) { assert args[i] == args[1..][i - 1]; }
    }
  }

  // --------------------------------------------------------------- the line

  lemma {:induction false} TrimRightSize(s: string)
    ensures |TrimRight(s)| <= |s| && (|TrimRight(s)| == |s| ==> TrimRight(s) == s)
    ensures TrimRight(s) == s <==> s == [] || Ends(s)
    ensures TrimRight(s) == [] || Ends(TrimRight(s))
  {
    if s != [] && White(s[|s| - 1]) { TrimRightSize(s[..|s| - 1]); }
  }

  lemma {:induction false} TrimRightTail(a: string, b: string)
    ensures TrimRight(a + b) == if TrimRight(b) == [] then TrimRight(a) else a + TrimRight(b)
  {
    if b == [] {
      assert a + b == a;
    } else {
      var k := |b| - 1;
      assert (a + b)[..|a + b| - 1] == a + b[..k] && (a + b)[|a + b| - 1] == b[k];
      if White(b[k]) { TrimRightTail(a, b[..k]); }
    }
  }

  /** The parts of a line behind its colon. */
  function Body(prefix: string, command: string, args: seq<string>): string {
    prefix + (" " + (command + Text(args)))
  }

  lemma LineIs(prefix: string, command: string, args: seq<string>)
    ensures Line(prefix, command, args) == ":" + Body(prefix, command, args)
    ensures |Line(prefix, command, args)| == 2 + |prefix| + |command| + |Text(args)|
    ensures Trim(Line(prefix, command, args)) == TrimRight(":" + Body(prefix, command, args))
  {}

  /** What prefix and command leave to the arguments. */
  lemma Headed(s: string, prefix: string, command: string, args: seq<string>)
    requires ' ' !in prefix && ' ' !in command && command != [] && args != []
    requires s == Body(prefix, command, args)
    ensures ParseHead(s) == Request(From(prefix), command, Args(Skip(Joined(args)), 0))
  {
    var rest := command + Text(args);
    FirstOf(prefix, rest);
    assert rest[0] == command[0] && command[0] in command;
    FirstOf(command, Joined(args));
  }

  /** The text of a line ends as its last argument does. */
  lemma {:induction false} JoinedEnds(args: seq<string>)
    requires args != [] && args[|args| - 1] != []
    ensures Joined(args) != [] && Ends(Joined(args)) == Ends(args[|args| - 1])
  {
    if |args| > 1 { JoinedEnds(args[1..]); }
  }

  lemma LineEnds(prefix: string, command: string, args: seq<string>)
    requires args != [] && args[|args| - 1] != []
    ensures Ends(":" + Body(prefix, command, args)) == Ends(args[|args| - 1])
  {
    JoinedEnds(args);
    var s, j := ":" + Body(prefix, command, args), Joined(args);
    assert s[|s| - 1] == j[|j| - 1];
  }

  /** A line that ends in no white space is taken as a whole. */
  lemma ParseEnded(prefix: string, command: string, args: seq<string>)
    requires ' ' !in prefix && ' ' !in command && command != [] && args != []
    requires Ends(":" + Body(prefix, command, args))
    ensures Parse(Line(prefix, command, args)) == Request(From(prefix), command, Args(Skip(Joined(args)), 0))
  {
    var s := Body(prefix, command, args);
    LineIs(prefix, command, args);
    TrimRightSize(":" + s);
    assert (":" + s)[1..] == s;
    Headed(s, prefix, command, args);
  }

  lemma ArgsIntact(args: seq<string>)
    requires args != [] && Intact(args)
    ensures Args(Skip(Joined(args)), 0) == args
  {
    var k := |args| - 1;
    var init, last := args[..k], args[k];
    assert args == init + [last] && Plain(args[0]);
    JoinedFirst("", args);
    ArgsPlain(init, last);
  }

  lemma ParseIntact(prefix: string, command: string, args: seq<string>)
    requires ' ' !in prefix && ' ' !in command && command != [] && args != [] && Intact(args)
    ensures Parse(Line(prefix, command, args)) == Request(From(prefix), command, args)
  {
    LineEnds(prefix, command, args);
    ParseEnded(prefix, command, args);
    ArgsIntact(args);
  }

  /** An empty last argument leaves a space at the end of the line. */
  lemma {:induction false} TextBlank(args: seq<string>)
    requires args != []
    ensures args[|args| - 1] == [] ==> White(Text(args)[|Text(args)| - 1])
  {
    if |args| > 1 {
      TextBlank(args[1..]);
      assert Text(args) == " " + args[0] + Text(args[1..]);
    }
  }

  /** Nothing in prefix, command and arguments was not there. */
  lemma HeadSize(s: string)
    requires ParseHead(s).Request? && ParseHead(s).argv != []
    ensures var r := ParseHead(s);
            r.prefix.From? && |r.prefix.id| + |r.command| + |Joined(r.argv)| + 2 <= |s|
  {
    var p := First(s);
    ArgsSize(First(p.rest).rest, 0);
  }

  /** A line that is parsed as it was written was not trimmed. */
  lemma NotTrimmed(prefix: string, command: string, args: seq<string>)
    requires args != [] && Parse(Line(prefix, command, args)) == Request(From(prefix), command, args)
    ensures Ends(":" + Body(prefix, command, args)) && args[|args| - 1] != []
  {
    var s := ":" + Body(prefix, command, args);
    LineIs(prefix, command, args);
    HeadSize(TrimRight(s)[1..]);
    TrimRightSize(s);
    TextBlank(args);
    var t := Text(args);
    assert s[|s| - 1] == t[|t| - 1];
  }

  lemma ParseOnly(prefix: string, command: string, args: seq<string>)
    requires ' ' !in prefix && ' ' !in command && command != [] && args != []
    requires Parse(Line(prefix, command, args)) == Request(From(prefix), command, args)
    ensures Intact(args)
  {
    NotTrimmed(prefix, command, args);
    LineEnds(prefix, command, args);
    ParseEnded(prefix, command, args);
    ArgsUndamaged(args);
  }

  /** Which messages are parsed as they were written: exactly those with
      arguments that are plain, not too many, and end the line. */
  lemma ParseExact(prefix: string, command: string, args: seq<string>)
    requires ' ' !in prefix && ' ' !in command && command != [] && args != []
    ensures Parse(Line(prefix, command, args)) == Request(From(prefix), command, args) <==> Intact(args)
  {
    if Intact(args) {
      ParseIntact(prefix, command, args);
    } else if Parse(Line(prefix, command, args)) == Request(From(prefix), command, args) {
      ParseOnly(prefix, command, args);
    }
  }

  lemma {:induction false} JoinedSnoc(args: seq<string>, a: string, x: string)
    ensures Joined(args + [a + x]) == Joined(args + [a]) + x
  {
    if args != [] {
      var tail := args[1..];
      assert args + [a + x] == [args[0]] + (tail + [a + x]) && args + [a] == [args[0]] + (tail + [a]);
      JoinedFirst(args[0], tail + [a + x]);
      JoinedFirst(args[0], tail + [a]);
      JoinedSnoc(tail, a, x);
    }
  }

  lemma BodySnoc(prefix: string, command: string, args: seq<string>, a: string, x: string)
    ensures ":" + Body(prefix, command, args + [a + x]) == ":" + Body(prefix, command, args + [a]) + x
  {
    JoinedSnoc(args, a, x);
    Regrouped(prefix, command, Joined(args + [a]), x);
  }

  lemma Regrouped(prefix: string, command: string, j: string, x: string)
    ensures ":" + (prefix + (" " + (command + (" " + (j + x)))))
            == ":" + (prefix + (" " + (command + (" " + j)))) + x
  {}

  lemma TrimBehind(s: string, x: string)
    requires Ends(s)
    ensures TrimRight(s + x) == s + TrimRight(x) && Ends(s + TrimRight(x))
  {
    var y := TrimRight(x);
    TrimRightTail(s, x);
    TrimRightSize(s);
    TrimRightSize(x);
    assert y == [] ==> s + y == s;
    assert y != [] ==> (s + y)[|s + y| - 1] == y[|y| - 1];
  }

  /** Trimming takes white space off the text behind the colon only. */
  lemma TrimmedText(prefix: string, command: string, args: seq<string>, x: string)
    ensures Ends(":" + Body(prefix, command, args + [":" + TrimRight(x)]))
    ensures TrimRight(":" + Body(prefix, command, args + [":" + x]))
            == ":" + Body(prefix, command, args + [":" + TrimRight(x)])
  {
    BodySnoc(prefix, command, args, ":", x);
    BodySnoc(prefix, command, args, ":", TrimRight(x));
    LineEnds(prefix, command, args + [":"]);
    TrimBehind(":" + Body(prefix, command, args + [":"]), x);
  }

  /** Text behind plain arguments and a colon may hold anything; what is read
      lacks the white space at its end. */
  lemma ParseTrailing(prefix: string, command: string, args: seq<string>, x: string)
    requires ' ' !in prefix && ' ' !in command && command != [] && AllPlain(args) && |args| < MAX_ARGS
    ensures Parse(Line(prefix, command, args + [":" + x])) == Request(From(prefix), command, args + [TrimRight(x)])
  {
    var y := TrimRight(x);
    var whole, cut := args + [":" + x], args + [":" + y];
    LineIs(prefix, command, whole);
    LineIs(prefix, command, cut);
    TrimmedText(prefix, command, args, x);
    TrimRightSize(":" + Body(prefix, command, cut));
    assert Parse(Line(prefix, command, whole)) == Parse(Line(prefix, command, cut));
    ParseEnded(prefix, command, cut);
    assert args != [] ==> Plain(args[0]) && cut[0] == args[0];
    JoinedFirst("", cut);
    ArgsTrailing(args, y);
  }

  lemma {:induction false} JoinedLast(args: seq<string>, a: string)
    requires args != []
    ensures Joined(args + [a]) == Joined(args) + (" " + a)
  {
    if |args| == 1 {
      assert args + [a] == [args[0]] + [a];
      JoinedFirst(args[0], [a]);
    } else {
      var tail := args[1..];
      assert args + [a] == [args[0]] + (tail + [a]);
      JoinedFirst(args[0], tail + [a]);
      JoinedLast(tail, a);
    }
  }

  lemma BodyLast(prefix: string, command: string, args: seq<string>, a: string)
    requires args != []
    ensures ":" + Body(prefix, command, args + [a]) == ":" + Body(prefix, command, args) + (" " + a)
  {
    JoinedLast(args, a);
    Regrouped(prefix, command, Joined(args), " " + a);
  }

  lemma TrimLast(s: string, a: string)
    requires Ends(s)
    ensures TrimRight(s + (" " + a)) == if TrimRight(a) == [] then s else s + (" " + TrimRight(a))
  {
    TrimBehind(s, " " + a);
    TrimRightTail(" ", a);
    assert " "[..0] == [];
    assert s + [] == s;
  }

  /** A last argument of white space is lost, any other loses its end. */
  lemma TrimmedLast(prefix: string, command: string, args: seq<string>, a: string)
    requires args != [] && Ends(args[|args| - 1])
    ensures Trim(Line(prefix, command, args + [a]))
            == Trim(Line(prefix, command, if TrimRight(a) == [] then args else args + [TrimRight(a)]))
  {
    var s, b := ":" + Body(prefix, command, args), TrimRight(a);
    LineEnds(prefix, command, args);
    LineIs(prefix, command, args);
    LineIs(prefix, command, args + [a]);
    LineIs(prefix, command, args + [b]);
    BodyLast(prefix, command, args, a);
    BodyLast(prefix, command, args, b);
    TrimLast(s, a);
    TrimLast(s, b);
    TrimRightSize(s);
    TrimRightSize(a);
    TrimRightSize(b);
  }

  /** What is read of a last argument without a space: a colon goes, and so does
      white space at the end. */
  function Last(a: string): seq<string> {
    if a != [] && a[0] == ':' then [TrimRight(a[1..])]
    else if TrimRight(a) == [] then [] else [TrimRight(a)]
  }

  lemma {:induction false} TrimRightIn(s: string)
    ensures TrimRight(s) <= s
  {
    if s != [] && White(s[|s| - 1]) { TrimRightIn(s[..|s| - 1]); }
  }

  lemma ParseLast(prefix: string, command: string, args: seq<string>, a: string)
    requires ' ' !in prefix && ' ' !in command && command != [] && ' ' !in a
    requires args != [] && Intact(args) && |args| < MAX_ARGS
    ensures Parse(Line(prefix, command, args + [a])) == Request(From(prefix), command, args + Last(a))
  {
    if a != [] && a[0] == ':' {
      assert a == ":" + a[1..];
      ParseTrailing(prefix, command, args, a[1..]);
    } else {
      var b := TrimRight(a);
      TrimmedLast(prefix, command, args, a);
      TrimRightIn(a);
      TrimRightSize(a);
      var read := if b == [] then args else args + [b];
      assert args + Last(a) == read;
      ParseIntact(prefix, command, read);
    }
  }

  // ------------------------------------------------------- without prefix

  /** A command that can stand at the start of a line. */
  predicate Word(command: string) {
    command != [] && ' ' !in command && command[0] != ':' && !White(command[0])
  }

  lemma Bare(command: string, args: seq<string>)
    requires Word(command) && args != []
    ensures var s := command + Text(args);
            && TrimLeft(s) == s && s[0] == command[0]
            && ParseCommand(NoPrefix, s) == Request(NoPrefix, command, Args(Skip(Joined(args)), 0))
  {
    FirstOf(command, Joined(args));
  }

  lemma BareEnds(command: string, args: seq<string>)
    requires args != [] && args[|args| - 1] != []
    ensures Ends(command + Text(args)) == Ends(args[|args| - 1])
  {
    JoinedEnds(args);
    var s, j := command + Text(args), Joined(args);
    assert s[|s| - 1] == j[|j| - 1];
  }

  lemma CommandSize(s: string)
    requires ParseCommand(NoPrefix, s).argv != []
    ensures var r := ParseCommand(NoPrefix, s); |r.command| + 1 + |Joined(r.argv)| <= |s|
  {
    ArgsSize(First(s).rest, 0);
  }

  /** If a line is parsed as it was printed, nothing of it was trimmed. */
  lemma BareNotTrimmed(command: string, args: seq<string>)
    requires Word(command) && args != [] && Parse(command + Text(args)) == Request(NoPrefix, command, args)
    ensures Ends(command + Text(args)) && args[|args| - 1] != []
  {
    var s := command + Text(args);
    Bare(command, args);
    TrimRightSize(s);
    TrimRightIn(s);
    var t := TrimRight(s);
    assert t[0] == s[0];
    CommandSize(t);
    TextBlank(args);
    var x := Text(args);
    assert s[|s| - 1] == x[|x| - 1];
  }

  /** The same for messages without a prefix. */
  lemma BareExact(command: string, args: seq<string>)
    requires Word(command) && args != []
    ensures Parse(command + Text(args)) == Request(NoPrefix, command, args) <==> Intact(args)
  {
    var s := command + Text(args);
    Bare(command, args);
    TrimRightSize(s);
    if Intact(args) {
      BareEnds(command, args);
      ArgsIntact(args);
    } else if Parse(s) == Request(NoPrefix, command, args) {
      BareNotTrimmed(command, args);
      BareEnds(command, args);
      ArgsUndamaged(args);
    }
  }

  /** Arguments that are read as they were printed are intact. */
  lemma ArgsUndamaged(args: seq<string>)
    requires args != [] && Ends(args[|args| - 1]) && Args(Skip(Joined(args)), 0) == args
    ensures Intact(args)
  {
    var j := Joined(args);
    ArgsSize(Skip(j), 0);
    ArgsCount(Skip(j), 0);
    JoinedFirst("", args);
    SkipSize(j);
    ArgsOnly(args, 0);
  }

  lemma SkipSize(s: string)
    ensures |Skip(s)| == |s| ==> s == [] || s[0] != ' '
  {}

  /** A line of white space is ignored, and no other; a prefix without a command
      is a colon behind white space and no white space behind it. */
  lemma ParseNothing(line: string)
    ensures Parse(line) == Ignored <==> forall i :: 0 <= i < |line| ==> White(line[i])
    ensures Parse(line) == NoCommand <==> Trim(line) != [] && Trim(line)[0] == ':' && ' ' !in Trim(line)
  {
    TrimNothing(line);
    var s := Trim(line);
    if s != [] && s[0] == ':' {
      FirstSays(s[1..]);
      assert s == [':'] + s[1..];
      if ' ' !in s[1..] { FirstOf(s[1..], []); }
    }
  }

  lemma {:induction false} TrimNothing(line: string)
    ensures Trim(line) == [] <==> forall i :: 0 <= i < |line| ==> White(line[i])
  {
    if line != [] && White(line[0]) {
      TrimNothing(line[1..]);
      if forall i :: 0 <= i < |line[1..]| ==> White(line[1..][i]) {
        forall i | 0 <= i < |line| ensures White(line[i]) { assert i > 0 ==> line[i] == line[1..][i - 1]; }
      }
    } else if line != [] {
      TrimRightSome(line);
    }
  }

  lemma {:induction false} TrimRightSome(s: string)
    requires s != [] && !White(s[0])
    ensures TrimRight(s) != []
  {
    if White(s[|s| - 1]) { TrimRightSome(s[..|s| - 1]); }
  }

  /** Trimming takes off spaces, tabs and line ends, and stops at anything else. */
  lemma TrimExact(a: string, s: string, b: string)
    requires (forall c :: c in a + b ==> c in " \t\n\r")
    requires s != [] && s[0] !in " \t\n\r" && s[|s| - 1] !in " \t\n\r"
    ensures Trim(a + s + b) == s
  {
    var l := a + s + b;
    forall i | 0 <= i < |a| ensures White(l[i]) { assert l[i] == a[i] && a[i] in a + b; }
    TrimLeftAt(l, |a|);
    assert l[|a|..] == s + b;
    forall i | |s| <= i < |s + b| ensures White((s + b)[i]) { assert b[i - |s|] in a + b; }
    TrimRightAt(s + b, |s|);
  }
}
