/** The diff that a MODE command broadcasts, read back. */
module ModeReplay {
  import opened Defines
  import opened CStrings
  import opened Directory
  import opened ChannelMode

  /** Does this mode take an argument in a diff? */
  predicate Takes(add: bool, c: char) {
    c == 'k' || (c == 'l' && add) || MemberMode(c)
  }

  /** A diff read from the left: sign in force, channel so far, arguments left;
      `ok` says that every argument so far was there and usable. */
  datatype Reader = Reader(add: bool, core: Core, args: seq<string>, ok: bool)

  predicate Usable(ids: seq<string>, core: Core, add: bool, c: char, arg: string) {
    if c == 'k' then add ==> arg != [] && ' ' !in arg && |arg| < CLIENT_PASS_LEN
    else if c == 'l' then 0 < Atol(arg) < 0xFFFF
    else FindClient(ids, arg) >= 0 && FindClient(ids, arg) in core.members
  }

  function Effect(ids: seq<string>, core: Core, add: bool, c: char, arg: string): Core
    requires Takes(add, c) ==> Usable(ids, core, add, c, arg)
  {
    if c == 'k' && add then SetKey(core, arg)
    else if c == 'l' && add then SetLimit(core, Atol(arg))
    else if MemberMode(c) then SetMember(core, add, c, FindClient(ids, arg))
    else SetFlag(core, add, c)
  }

  function Feed(ids: seq<string>, r: Reader, c: char): Reader {
    if !r.ok then r
    else if IsSign(c) then r.(add := c == '+')
    else if !Takes(r.add, c) then
      if ListMode(c) then r.(ok := false) else r.(core := Effect(ids, r.core, r.add, c, ""))
    else if r.args != [] && Usable(ids, r.core, r.add, c, r.args[0]) then
      r.(core := Effect(ids, r.core, r.add, c, r.args[0]), args := r.args[1..])
    else r.(ok := false)
  }

  function FeedAll(ids: seq<string>, r: Reader, m: string): Reader
    decreases m
  {
    if m == [] then r else FeedAll(ids, Feed(ids, r, m[0]), m[1..])
  }

  lemma {:induction false} FeedSnoc(ids: seq<string>, r: Reader, m: string, c: char)
    ensures FeedAll(ids, r, m + [c]) == Feed(ids, FeedAll(ids, r, m), c)
    decreases m
  {
    if m == [] {
      assert (m + [c])[1..] == [];
    } else {
      assert (m + [c])[1..] == m[1..] + [c];
      FeedSnoc(ids, Feed(ids, r, m[0]), m[1..], c);
    }
  }

  /** Further arguments do not disturb what was read without them. */
  lemma {:induction false} FeedMore(ids: seq<string>, r: Reader, m: string, extra: seq<string>)
    requires FeedAll(ids, r, m).ok
    ensures var f := FeedAll(ids, r, m);
            FeedAll(ids, r.(args := r.args + extra), m) == f.(args := f.args + extra)
    decreases m
  {
    if m != [] {
      var r1 := Feed(ids, r, m[0]);
      FeedOk(ids, r1, m[1..]);
      assert r.args != [] ==> (r.args + extra)[1..] == r.args[1..] + extra;
      FeedMore(ids, r1, m[1..], extra);
    }
  }

  lemma {:induction false} FeedOk(ids: seq<string>, r: Reader, m: string)
    ensures !r.ok ==> !FeedAll(ids, r, m).ok
    decreases m
  {
    if m != [] { FeedOk(ids, Feed(ids, r, m[0]), m[1..]); }
  }

  /** The walk is where the diff built so far leads from `core`. */
  predicate Tracks(ids: seq<string>, core: Core, w: Walk) {
    FeedAll(ids, Reader(true, core, w.diff.args, true), w.diff.modes) == Reader(w.add, w.core, [], true)
  }

  /** The letter occurs at most once, as it does unless a mode string was
      taken over unseen. */
  predicate Single(modes: string, c: char) { c !in WithoutMode(modes, c) }

  predicate Sound(core: Core) { Single(core.modes, 'k') && Single(core.modes, 'l') }

  // ------------------------------------------------------------ emission

  /** The character left no trace in channel or diff. */
  predicate Silent(w: Walk, w1: Walk) {
    w1.add == w.add && w1.core == w.core && w1.diff == w.diff
  }

  /** The character was reported with an argument that has the same effect. */
  predicate Reported(ids: seq<string>, c: char, w: Walk, w1: Walk) {
    && w1.add == w.add && !IsSign(c) && w1.diff.modes == w.diff.modes + [c]
    && if Takes(w.add, c) then
         && w1.diff.args != [] && w1.diff.args[..|w1.diff.args| - 1] == w.diff.args
         && var arg := w1.diff.args[|w1.diff.args| - 1];
            Usable(ids, w.core, w.add, c, arg) && w1.core == Effect(ids, w.core, w.add, c, arg)
       else !ListMode(c) && w1.diff.args == w.diff.args && w1.core == Effect(ids, w.core, w.add, c, "")
  }

  lemma {:induction false} DigitsAppend(s: string, d: char, acc: nat)
    requires Digit(d) && forall i :: 0 <= i < |s| ==> Digit(s[i])
    ensures Digits(s + [d], acc) == Digits(s, acc) * 10 + (d as int - '0' as int)
  {
    if s == [] {
      assert (s + [d])[1..] == [];
    } else {
      assert (s + [d])[1..] == s[1..] + [d];
      DigitsAppend(s[1..], d, acc * 10 + (s[0] as int - '0' as int));
    }
  }

  lemma {:induction false} DecimalRoundTrip(n: nat)
    ensures Digits(Decimal(n), 0) == n
  {
    if n < 10 {
      assert Decimal(n)[1..] == [];
    } else {
      DecimalRoundTrip(n / 10);
      DigitsAppend(Decimal(n / 10), ('0' as int + n % 10) as char, 0);
    }
  }

  /** A limit printed with %ld is read back by atol(). */
  lemma AtolDecimal(n: nat)
    ensures Atol(Decimal(n)) == n
  {
    DecimalRoundTrip(n);
  }

  lemma ReportArg(ids: seq<string>, c: char, w: Walk, core: Core, arg: string)
    requires !IsSign(c) && Takes(w.add, c) && Usable(ids, w.core, w.add, c, arg)
    requires core == Effect(ids, w.core, w.add, c, arg)
    ensures Reported(ids, c, w, Report(w, core, [c], [arg]))
  {
    assert (w.diff.args + [arg])[..|w.diff.args|] == w.diff.args;
  }

  lemma KeyEmits(env: Env, w: Walk, queue: seq<string>)
    requires Sound(w.core)
    ensures var w1 := DoKey(env, w, queue).w; Silent(w, w1) || Reported(env.ids, 'k', w, w1)
  {
    if !w.add {
      ReportArg(env.ids, 'k', w, SetFlag(w.core, false, 'k'), "*");
    } else if queue != [] && queue[0] != [] && ' ' !in queue[0] {
      var core := SetKey(w.core, queue[0]);
      ReportArg(env.ids, 'k', w, core, core.key);
    }
  }

  lemma LimitEmits(env: Env, w: Walk, queue: seq<string>)
    requires Sound(w.core)
    ensures var w1 := DoLimit(env, w, queue).w; Silent(w, w1) || Reported(env.ids, 'l', w, w1)
  {
    if w.add && queue != [] && 0 < Atol(queue[0]) < 0xFFFF {
      var l := Atol(queue[0]);
      AtolDecimal(l);
      ReportArg(env.ids, 'l', w, SetLimit(w.core, l), Decimal(l));
    }
  }

  lemma MemberEmits(env: Env, w: Walk, c: char, queue: seq<string>)
    requires MemberMode(c)
    ensures var w1 := DoMember(env, w, c, queue).w; Silent(w, w1) || Reported(env.ids, c, w, w1)
  {
    if queue != [] {
      var client := FindClient(env.ids, queue[0]);
      if client >= 0 && client in w.core.members {
        FindAgain(env.ids, queue[0]);
        ReportArg(env.ids, c, w, SetMember(w.core, w.add, c, client), env.ids[client]);
      }
    }
  }

  lemma FlagEmits(env: Env, w: Walk, c: char, queue: seq<string>)
    requires !IsSign(c) && c != 'k' && c != 'l' && !MemberMode(c) && !ListMode(c)
    ensures var w1 := GuardedFlag(env, w, c, queue).w; Silent(w, w1) || Reported(env.ids, c, w, w1)
  {}

  lemma CharEmits(env: Env, c: char, queue: seq<string>, w: Walk)
    requires Sound(w.core) && !IsSign(c)
    ensures var w1 := ModeChar(env, c, queue, w).w; Silent(w, w1) || Reported(env.ids, c, w, w1)
  {
    var n := Note(env, w);
    if c == 'k' {
      KeyEmits(env, n, queue);
    } else if c == 'l' {
      LimitEmits(env, n, queue);
    } else if MemberMode(c) {
      MemberEmits(env, n, c, queue);
    } else if !ListMode(c) {
      FlagEmits(env, n, c, queue);
    }
  }

  // ------------------------------------------------------------ tracking

  lemma SignTracks(ids: seq<string>, core: Core, w: Walk, c: char)
    requires Tracks(ids, core, w) && IsSign(c)
    ensures Tracks(ids, core, Sign(w, c))
  {
    var r := Reader(true, core, w.diff.args, true);
    var m, n := w.diff.modes, |w.diff.modes|;
    FeedSnoc(ids, r, m, c);
    if n > 0 && IsSign(m[n - 1]) {
      assert m == m[..n - 1] + [m[n - 1]];
      FeedSnoc(ids, r, m[..n - 1], m[n - 1]);
      FeedSnoc(ids, r, m[..n - 1], c);
    }
  }

  lemma ReportedTracks(ids: seq<string>, core: Core, w: Walk, c: char, w1: Walk)
    requires Tracks(ids, core, w) && Reported(ids, c, w, w1)
    ensures Tracks(ids, core, w1)
  {
    var r := Reader(true, core, w.diff.args, true);
    var extra := w1.diff.args[|w.diff.args|..];
    assert w1.diff.args == w.diff.args + extra;
    FeedMore(ids, r, w.diff.modes, extra);
    FeedSnoc(ids, r.(args := w1.diff.args), w.diff.modes, c);
  }

  /** Taking off a letter keeps every other letter single. */
  lemma {:induction false} WithoutSingle(s: string, c: char, d: char)
    requires Single(s, d)
    ensures Single(WithoutMode(s, c), d)
  {
    if s != [] {
      if s[0] == c {
        WithoutMembers(s[1..], d, d);
        if s[0] == d { WithoutAbsent(s[1..], d); }
      } else if s[0] == d {
        WithoutMembers(s[1..], c, d);
        assert WithoutMode(s, c)[1..] == WithoutMode(s[1..], c);
      } else {
        WithoutSingle(s[1..], c, d);
        assert WithoutMode(s, c)[1..] == WithoutMode(s[1..], c);
      }
    }
  }

  lemma {:induction false} AppendSingle(s: string, c: char, d: char)
    requires Single(s, d) && c !in s
    ensures Single(s + [c], d)
  {
    if s == [] {
      assert (s + [c])[1..] == [];
    } else {
      assert (s + [c])[1..] == s[1..] + [c];
      assert s[0] in s;
      if s[0] != d { AppendSingle(s[1..], c, d); }
    }
  }

  lemma SetModeSingle(s: string, add: bool, c: char, d: char)
    requires Single(s, d)
    ensures Single(SetMode(s, add, c), d)
  {
    WithoutSingle(s, c, d);
    if c !in s { AppendSingle(s, c, d); }
  }

  lemma EffectSound(ids: seq<string>, core: Core, add: bool, c: char, arg: string)
    requires Sound(core) && (Takes(add, c) ==> Usable(ids, core, add, c, arg))
    ensures Sound(Effect(ids, core, add, c, arg))
  {
    SetModeSingle(core.modes, add, c, 'k');
    SetModeSingle(core.modes, add, c, 'l');
    var m := WithoutMode(core.modes, c);
    SetModeSingle(core.modes, false, c, 'k');
    SetModeSingle(core.modes, false, c, 'l');
    SetModeSingle(m, true, c, 'k');
    SetModeSingle(m, true, c, 'l');
  }

  predicate Follows(ids: seq<string>, core: Core, w: Walk) {
    Tracks(ids, core, w) && Sound(w.core) && w.diff.modes != [] && IsSign(w.diff.modes[0])
  }

  /** One mode letter. */
  lemma CharTracks(env: Env, core: Core, c: char, queue: seq<string>, w: Walk)
    requires Follows(env.ids, core, w) && !IsSign(c)
    ensures Follows(env.ids, core, ModeChar(env, c, queue, w).w)
  {
    var w1 := ModeChar(env, c, queue, w).w;
    CharEmits(env, c, queue, w);
    if !Silent(w, w1) {
      ReportedTracks(env.ids, core, w, c, w1);
      var a := w1.diff.args;
      EffectSound(env.ids, w.core, w.add, c, if Takes(w.add, c) then a[|a| - 1] else "");
    }
  }

  /** Whatever is sent by whomever, the diff tracks the channel. */
  lemma {:induction false} InterpretTracks(env: Env, core: Core, cur: string, queue: seq<string>, w: Walk)
    requires Follows(env.ids, core, w)
    ensures Follows(env.ids, core, Interpret(env, cur, queue, w))
    decreases |queue|, |cur|
  {
    if cur == [] {
      if queue != [] && queue[0] != [] { InterpretTracks(env, core, queue[0], queue[1..], w); }
    } else if IsSign(cur[0]) {
      SignTracks(env.ids, core, w, cur[0]);
      InterpretTracks(env, core, cur[1..], queue, Sign(w, cur[0]));
    } else {
      var s := ModeChar(env, cur[0], queue, w);
      CharTracks(env, core, cur[0], queue, w);
      if s.Go? { InterpretTracks(env, core, cur[1..], s.queue, s.w); }
    }
  }

  // ------------------------------------------------------------- replay

  lemma ServerMember(env: Env, r: Reader, c: char, w: Walk)
    requires MemberMode(c)
    requires env.kind == Server && !IsSign(c)
    requires r.ok && Feed(env.ids, r, c).ok && w.core == r.core && w.add == r.add
    ensures var s := ModeChar(env, c, r.args, w); var f := Feed(env.ids, r, c);
            s.Go? && s.queue == f.args && s.w.core == f.core && s.w.add == f.add
  {
    var m := w.core.members[FindClient(env.ids, r.args[0])];
    if c !in m { WithoutAbsent(m, c); }
  }

  lemma ServerArgument(env: Env, r: Reader, c: char, w: Walk)
    requires c == 'k' || c == 'l'
    requires env.kind == Server && !IsSign(c)
    requires r.ok && Feed(env.ids, r, c).ok && w.core == r.core && w.add == r.add
    ensures var s := ModeChar(env, c, r.args, w); var f := Feed(env.ids, r, c);
            s.Go? && s.queue == f.args && s.w.core == f.core && s.w.add == f.add
  {
    if c !in w.core.modes { WithoutAbsent(w.core.modes, c); }
  }

  /** What the reader makes of a character, a server's command does. */
  lemma ServerStep(env: Env, r: Reader, c: char, w: Walk)
    requires env.kind == Server && !IsSign(c)
    requires r.ok && Feed(env.ids, r, c).ok && w.core == r.core && w.add == r.add
    ensures var s := ModeChar(env, c, r.args, w); var f := Feed(env.ids, r, c);
            s.Go? && s.queue == f.args && s.w.core == f.core && s.w.add == f.add
  {
    if MemberMode(c) {
      ServerMember(env, r, c, w);
    } else if c == 'k' || c == 'l' {
      ServerArgument(env, r, c, w);
    } else {
      if c !in w.core.modes { WithoutAbsent(w.core.modes, c); }
    }
  }

  lemma {:induction false} ServerReads(env: Env, r: Reader, m: string, w: Walk)
    requires env.kind == Server
    requires FeedAll(env.ids, r, m).ok && FeedAll(env.ids, r, m).args == []
    requires w.core == r.core && w.add == r.add
    ensures Interpret(env, m, r.args, w).core == FeedAll(env.ids, r, m).core
    decreases m
  {
    if m != [] {
      var r1 := Feed(env.ids, r, m[0]);
      FeedOk(env.ids, r1, m[1..]);
      if IsSign(m[0]) {
        ServerReads(env, r1, m[1..], Sign(w, m[0]));
      } else {
        FeedOk(env.ids, r, m);
        ServerStep(env, r, m[0], w);
        ServerReads(env, r1, m[1..], ModeChar(env, m[0], r.args, w).w);
      }
    }
  }

  lemma TrimmedReads(ids: seq<string>, r: Reader, m: string)
    ensures var f, t := FeedAll(ids, r, m), FeedAll(ids, r, Trimmed(m));
            f.ok ==> t.ok && t.core == f.core && t.args == f.args
  {
    if m != [] {
      var n := |m| - 1;
      assert m == m[..n] + [m[n]];
      FeedSnoc(ids, r, m[..n], m[n]);
    }
  }

  /** A sign with nothing behind it changes nothing. */
  lemma SignOnly(ids: seq<string>, r: Reader, d: string)
    requires |d| == 1 && IsSign(d[0])
    ensures FeedAll(ids, r, d).core == r.core
  {
    assert d[1..] == [];
  }

  /** A server's command does what the reader makes of its parameters. */
  lemma MessageRuns(peer: Env, core: Core, lists: Lists, t: string, args: seq<string>)
    requires peer.kind == Server && t != [] && IsSign(t[0])
    requires var f := FeedAll(peer.ids, Reader(true, core, args, true), t); f.ok && f.args == []
    ensures Command(peer, core, lists, [t] + args).core
            == FeedAll(peer.ids, Reader(true, core, args, true), t).core
  {
    var r1 := Feed(peer.ids, Reader(true, core, args, true), t[0]);
    assert ([t] + args)[1..] == args;
    ServerReads(peer, r1, t[1..], Start(core, lists, t[0] != '-'));
  }

  /** The walk of a whole command tracks the channel from its start. */
  lemma CommandTracks(env: Env, core: Core, lists: Lists, params: seq<string>)
    requires params != [] && Sound(core)
    ensures Follows(env.ids, core, Command(env, core, lists, params))
  {
    var m := params[0];
    var start := Start(core, lists, m == [] || m[0] != '-');
    assert start.diff.modes[1..] == [];
    InterpretTracks(env, core, if m != [] && IsSign(m[0]) then m[1..] else m, params[1..], start);
  }

  /** Meaning preservation: run on the same starting state by any server, the
      broadcast of a MODE command leaves exactly the flags, key, limit and
      member modes the command left; without a broadcast nothing changed. */
  lemma Replay(env: Env, core: Core, lists: Lists, params: seq<string>, peer: Env, lists1: Lists)
    requires params != [] && Sound(core)
    requires peer.kind == Server && peer.ids == env.ids
    ensures var w := Command(env, core, lists, params);
            && Sound(w.core)
            && (Broadcast(w) ==> Command(peer, core, lists1, Message(w)).core == w.core)
            && (!Broadcast(w) ==> w.core == core)
  {
    var w := Command(env, core, lists, params);
    CommandTracks(env, core, lists, params);
    var r := Reader(true, core, w.diff.args, true);
    if Broadcast(w) {
      TrimmedReads(env.ids, r, w.diff.modes);
      MessageRuns(peer, core, lists1, Trimmed(w.diff.modes), w.diff.args);
    } else {
      SignOnly(env.ids, r, w.diff.modes);
    }
  }

  /** The command replays on a server that knows the same clients: its broadcast
      has its effect, and without a broadcast it has none. */
  ghost predicate Replays(core: Core, env: Env, lists: Lists, params: seq<string>, peer: Env, lists1: Lists) {
    params != [] && peer.kind == Server && peer.ids == env.ids ==>
    var w := Command(env, core, lists, params);
    && (Broadcast(w) ==> Command(peer, core, lists1, Message(w)).core == w.core)
    && (!Broadcast(w) ==> w.core == core)
  }

  /** Every command of every sender does. */
  ghost predicate AlwaysReplays(core: Core) {
    forall env, lists, params, peer, lists1 :: Replays(core, env, lists, params, peer, lists1)
  }

  /** The condition is needed: with a second key letter the key changes
      without any broadcast. */
  lemma ReplayNeedsSingle(env: Env, core: Core, lists: Lists, key: string)
    requires env.kind == Server && !Single(core.modes, 'k')
    requires key != [] && ' ' !in key && Cut(key, CLIENT_PASS_LEN) != core.key
    ensures var w := Command(env, core, lists, ["+k", key]); !Broadcast(w) && w.core != core
  {
    assert "+k"[1..] == "k" && "k"[1..] == [];
    assert ["+k", key][1..] == [key] && [key][1..] == [];
    var start := Start(core, lists, true);
    assert Interpret(env, "k", [key], start) == Interpret(env, [], [], ModeChar(env, 'k', [key], start).w);
  }

  /** And with a second limit letter the limit does. */
  lemma ReplayNeedsSingleLimit(env: Env, core: Core, lists: Lists, n: nat)
    requires env.kind == Server && !Single(core.modes, 'l')
    requires 0 < n < 0xFFFF && n != core.limit
    ensures var w := Command(env, core, lists, ["+l", Decimal(n)]); !Broadcast(w) && w.core != core
  {
    var arg := Decimal(n);
    AtolDecimal(n);
    assert "+l"[1..] == "l" && "l"[1..] == [];
    assert ["+l", arg][1..] == [arg] && [arg][1..] == [];
    var start := Start(core, lists, true);
    assert Interpret(env, "l", [arg], start) == Interpret(env, [], [], ModeChar(env, 'l', [arg], start).w);
  }

  /** Exactly the channels whose letters k and l are single replay whatever is
      sent to them. */
  lemma ReplayExact(core: Core)
    ensures AlwaysReplays(core) <==> Sound(core)
  {
    if Sound(core) {
      forall env: Env, lists: Lists, params: seq<string>, peer: Env, lists1: Lists
        ensures Replays(core, env, lists, params, peer, lists1)
      {
        if params != [] && peer.kind == Server && peer.ids == env.ids {
          Replay(env, core, lists, params, peer, lists1);
        }
      }
    } else {
      var env, lists := Env([], 0, Server, false, _ => true), Lists([], [], []);
      if !Single(core.modes, 'k') {
        var key := if core.key == "a" then "b" else "a";
        ReplayNeedsSingle(env, core, lists, key);
        assert !Replays(core, env, lists, ["+k", key], env, lists);
      } else {
        var n := if core.limit == 1 then 2 else 1;
        ReplayNeedsSingleLimit(env, core, lists, n);
        assert !Replays(core, env, lists, ["+l", Decimal(n)], env, lists);
      }
    }
  }
}
