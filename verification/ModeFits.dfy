/** The reply buffers of `Channel_Mode`: what is appended to `the_modes` and
    `the_args` for a command that fits a request line is never cut. */
module ModeFits {
  import opened Defines
  import opened CStrings
  import opened Directory
  import opened ChannelMode
  import opened ModeReplay

  /** Bytes of parameters, each with the space before it. */
  function Size(q: seq<string>): nat {
    if q == [] then 0 else 1 + |q[0]| + Size(q[1..])
  }

  lemma {:induction false} SizeAppend(a: seq<string>, b: seq<string>)
    ensures Size(a + b) == Size(a) + Size(b)
  {
    if a == [] {
      assert a + b == b;
    } else {
      assert (a + b)[1..] == a[1..] + b;
      SizeAppend(a[1..], b);
    }
  }

  lemma SizeOne(a: seq<string>, s: string)
    ensures Size(a + [s]) == Size(a) + 1 + |s|
  {
    SizeAppend(a, [s]);
    assert [s][1..] == [];
  }

  /** How often the key letter occurs; each occurrence can still cost a "*". */
  function Keys(m: string): nat {
    if m == [] then 0 else (if m[0] == 'k' then 1 else 0) + Keys(m[1..])
  }

  lemma {:induction false} KeysWithout(m: string, c: char)
    ensures Keys(WithoutMode(m, c)) == Keys(m) - (if c == 'k' && c in m then 1 else 0)
  {
    if m != [] {
      KeysWithout(m[1..], c);
      assert m == [m[0]] + m[1..];
      if m[0] != c { assert WithoutMode(m, c)[1..] == WithoutMode(m[1..], c); }
    }
  }

  lemma {:induction false} KeysSnoc(m: string, c: char)
    ensures Keys(m + [c]) == Keys(m) + (if c == 'k' then 1 else 0)
  {
    if m == [] {
      assert (m + [c])[1..] == [];
    } else {
      assert (m + [c])[1..] == m[1..] + [c];
      KeysSnoc(m[1..], c);
    }
  }

  lemma KeysSet(m: string, add: bool, c: char)
    ensures Keys(SetMode(m, add, c)) <= Keys(m) + (if c == 'k' && add then 1 else 0)
  {
    KeysWithout(m, c);
    KeysSnoc(m, c);
  }

  lemma {:induction false} SingleKeys(m: string)
    requires Single(m, 'k')
    ensures Keys(m) <= 1
  {
    KeysWithout(m, 'k');
    NoKeys(WithoutMode(m, 'k'));
  }

  lemma {:induction false} NoKeys(m: string)
    requires 'k' !in m
    ensures Keys(m) == 0
  {
    if m != [] {
      assert m[0] in m;
      NoKeys(m[1..]);
    }
  }

  // ------------------------------------------------- arguments do not grow

  lemma DecimalTen(n: nat, d: nat)
    requires n > 0 && d < 10
    ensures |Decimal(n * 10 + d)| == |Decimal(n)| + 1
  {
    assert (n * 10 + d) / 10 == n;
  }

  lemma {:induction false} DigitsLength(s: string, acc: nat)
    ensures acc > 0 ==> |Decimal(Digits(s, acc))| <= |Decimal(acc)| + |s|
    ensures acc == 0 && Digits(s, acc) > 0 ==> |Decimal(Digits(s, acc))| <= |s|
    decreases |s|
  {
    if s != [] && Digit(s[0]) {
      var d := s[0] as int - '0' as int;
      if acc > 0 { DecimalTen(acc, d); }
      DigitsLength(s[1..], acc * 10 + d);
    }
  }

  /** A limit is printed no longer than it was written. */
  lemma {:induction false} LimitLength(s: string)
    requires Atol(s) > 0
    ensures |Decimal(Atol(s))| <= |s|
  {
    if Space(s[0]) {
      LimitLength(s[1..]);
    } else if s[0] == '+' {
      DigitsLength(s[1..], 0);
    } else {
      DigitsLength(s, 0);
    }
  }

  lemma NickLength(ids: seq<string>, nick: string)
    requires FindClient(ids, nick) >= 0
    ensures |ids[FindClient(ids, nick)]| <= |nick|
  {
    SameLength(ids[FindClient(ids, nick)], SearchId(nick));
  }

  // ------------------------------------------------------- one character

  /** Bytes of arguments reported and still to be expected for key letters. */
  function Spent(w: Walk): nat { Size(w.diff.args) + Keys(w.core.modes) }

  /** A character adds at most one letter, and the arguments it reports are paid
      for by itself and the argument it used up. */
  predicate Paid(w: Walk, queue: seq<string>, s: Step) {
    && |s.w.diff.modes| <= |w.diff.modes| + 1
    && if s.Go? then Spent(s.w) + Size(s.queue) <= Spent(w) + Size(queue) + 1 else Spent(s.w) <= Spent(w)
  }

  lemma SamePaid(w: Walk, queue: seq<string>, s: Step)
    requires s.w.core == w.core && s.w.diff == w.diff && s.Takes(queue)
    ensures Paid(w, queue, s)
  {}

  lemma FlagPaid(w: Walk, c: char, queue: seq<string>)
    requires c != 'k'
    ensures Paid(w, queue, DoFlag(w, c, queue))
  {
    KeysSet(w.core.modes, w.add, c);
    SizeAppend(w.diff.args, []);
  }

  lemma AddKeyPaid(env: Env, w: Walk, queue: seq<string>)
    ensures Paid(w, queue, AddKey(env, w, queue))
  {
    if queue != [] {
      var core := SetKey(w.core, queue[0]);
      KeysWithout(w.core.modes, 'k');
      KeysSet(WithoutMode(w.core.modes, 'k'), true, 'k');
      SizeOne(w.diff.args, core.key);
    }
  }

  lemma DelKeyPaid(env: Env, w: Walk, queue: seq<string>)
    ensures Paid(w, queue, DelKey(env, w, queue))
  {
    KeysWithout(w.core.modes, 'k');
    SizeOne(w.diff.args, "*");
  }

  lemma AddLimitPaid(env: Env, w: Walk, queue: seq<string>)
    ensures Paid(w, queue, AddLimit(env, w, queue))
  {
    if queue != [] && Atol(queue[0]) > 0 {
      LimitLength(queue[0]);
      KeysWithout(w.core.modes, 'l');
      KeysSet(WithoutMode(w.core.modes, 'l'), true, 'l');
      SizeOne(w.diff.args, Decimal(Atol(queue[0])));
    }
  }

  lemma MemberPaid(env: Env, w: Walk, c: char, queue: seq<string>)
    ensures Paid(w, queue, DoMember(env, w, c, queue))
  {
    if queue != [] && FindClient(env.ids, queue[0]) >= 0 {
      NickLength(env.ids, queue[0]);
      SizeOne(w.diff.args, env.ids[FindClient(env.ids, queue[0])]);
    }
  }

  lemma PaidFrom(w: Walk, n: Walk, queue: seq<string>, s: Step)
    requires n.core == w.core && n.diff == w.diff && Paid(n, queue, s)
    ensures Paid(w, queue, s)
  {}

  lemma KeyPaid(env: Env, w: Walk, queue: seq<string>)
    ensures Paid(w, queue, DoKey(env, w, queue))
  {
    var n := Counted(w);
    if w.add { AddKeyPaid(env, n, queue); } else { DelKeyPaid(env, n, queue); }
    PaidFrom(w, n, queue, if w.add then AddKey(env, n, queue) else DelKey(env, n, queue));
  }

  lemma LimitPaid(env: Env, w: Walk, queue: seq<string>)
    ensures Paid(w, queue, DoLimit(env, w, queue))
  {
    var n := Counted(w);
    if w.add { AddLimitPaid(env, n, queue); } else { FlagPaid(n, 'l', queue); }
  }

  lemma ListPaid(env: Env, w: Walk, c: char, queue: seq<string>)
    ensures Paid(w, queue, DoList(env, w, c, queue))
  {
    SamePaid(w, queue, DoList(env, w, c, queue));
  }

  lemma GuardedPaid(env: Env, w: Walk, c: char, queue: seq<string>)
    requires c != 'k'
    ensures Paid(w, queue, GuardedFlag(env, w, c, queue))
  {
    FlagPaid(w, c, queue);
  }

  lemma CharPaid(env: Env, c: char, queue: seq<string>, w: Walk)
    ensures Paid(w, queue, ModeChar(env, c, queue, w))
  {
    var n := Note(env, w);
    if c == 'k' {
      KeyPaid(env, n, queue);
    } else if c == 'l' {
      LimitPaid(env, n, queue);
    } else if MemberMode(c) {
      MemberPaid(env, n, c, queue);
    } else if ListMode(c) {
      ListPaid(env, n, c, queue);
    } else {
      GuardedPaid(env, n, c, queue);
    }
    PaidFrom(w, n, queue, ModeChar(env, c, queue, w));
  }

  // ----------------------------------------------------------- a command

  lemma {:induction false} InterpretPaid(env: Env, cur: string, queue: seq<string>, w: Walk)
    ensures var r := Interpret(env, cur, queue, w);
            && |r.diff.modes| <= |w.diff.modes| + |cur| + Size(queue)
            && Spent(r) <= Spent(w) + |cur| + Size(queue)
    decreases |queue|, |cur|
  {
    if cur == [] {
      if queue != [] && queue[0] != [] { InterpretPaid(env, queue[0], queue[1..], w); }
    } else if IsSign(cur[0]) {
      InterpretPaid(env, cur[1..], queue, Sign(w, cur[0]));
    } else {
      CharPaid(env, cur[0], queue, w);
      var s := ModeChar(env, cur[0], queue, w);
      if s.Go? { InterpretPaid(env, cur[1..], s.queue, s.w); }
    }
  }

  /** The text of the arguments, as it is meant and as strlcat() builds it. */
  function ArgsText(args: seq<string>): string {
    if args == [] then "" else ArgsText(args[..|args| - 1]) + " " + args[|args| - 1]
  }

  function Appended(args: seq<string>): (r: string)
    ensures |r| < COMMAND_LEN
  {
    if args == [] then ""
    else CatCut(CatCut(Appended(args[..|args| - 1]), " ", COMMAND_LEN), args[|args| - 1], COMMAND_LEN)
  }

  lemma {:induction false} AppendedWhole(args: seq<string>)
    requires Size(args) < COMMAND_LEN
    ensures |ArgsText(args)| == Size(args) && Appended(args) == ArgsText(args)
  {
    if args != [] {
      var n := |args| - 1;
      assert args == args[..n] + [args[n]];
      SizeOne(args[..n], args[n]);
      AppendedWhole(args[..n]);
    }
  }

  /** For parameters that fit a request line of 510 bytes neither the reply's
      mode string nor its arguments reach the end of their buffers, so what is
      broadcast is the whole diff. */
  lemma DiffFits(env: Env, core: Core, lists: Lists, params: seq<string>)
    requires params != [] && Sound(core) && Size(params) <= 510
    ensures var w := Command(env, core, lists, params);
            |w.diff.modes| < COMMAND_LEN && Appended(w.diff.args) == ArgsText(w.diff.args)
  {
    var m := params[0];
    var cur := if m != [] && IsSign(m[0]) then m[1..] else m;
    var start := Start(core, lists, m == [] || m[0] != '-');
    SingleKeys(core.modes);
    InterpretPaid(env, cur, params[1..], start);
    AppendedWhole(Command(env, core, lists, params).diff.args);
  }
}
