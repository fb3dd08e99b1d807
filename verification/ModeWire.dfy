/** The broadcast of a MODE command as the line that other servers parse. */
module ModeWire {
  import opened Defines
  import opened CStrings
  import opened Directory
  import opened ChannelMode
  import opened ModeReplay
  import opened ModeFits
  import Request

  /** The line that is sent. */
  function Sent(origin: string, channel: string, w: Walk): string {
    ":" + origin + " MODE " + channel + " " + Trimmed(w.diff.modes) + ArgsText(w.diff.args)
  }

  /** The channel on a server that got the line. */
  function Received(peer: Env, core: Core, lists: Lists, line: string): Core {
    var r := Request.Parse(line);
    if r.Request? && |r.argv| > 1 then Command(peer, core, lists, r.argv[1..]).core else core
  }

  function Params(channel: string, w: Walk): seq<string> { [channel] + Message(w) }

  lemma {:induction false} ArgsTextJoined(a: string, args: seq<string>)
    ensures Request.Joined([a] + args) == a + ArgsText(args)
  {
    if args == [] {
      assert [a] + args == [a];
    } else {
      var n := |args| - 1;
      var init, last := args[..n], args[n];
      ArgsTextJoined(a, init);
      assert [a] + args == ([a] + init) + [last];
      Request.JoinedLast([a] + init, last);
    }
  }

  lemma Spelled(o: string, c: string, m: string, t: string)
    ensures ":" + o + " MODE " + c + " " + m + t == ":" + o + " " + "MODE" + (" " + (c + (" " + (m + t))))
  {
    assert " MODE " == " " + "MODE" + " ";
  }

  lemma SentIsLine(origin: string, channel: string, w: Walk)
    ensures Sent(origin, channel, w) == Request.Line(origin, "MODE", Params(channel, w))
  {
    var m := Trimmed(w.diff.modes);
    ArgsTextJoined(m, w.diff.args);
    Request.JoinedFirst(channel, Message(w));
    Spelled(origin, channel, m, ArgsText(w.diff.args));
  }

  /** A broadcast is parsed as it was meant exactly when its parameters are
      intact: of at most 15, none is empty, holds a space or starts with a
      colon, and the last one does not end in white space. */
  lemma WireExact(origin: string, channel: string, w: Walk)
    requires ' ' !in origin
    ensures Request.Parse(Sent(origin, channel, w)) == Request.Request(Request.From(origin), "MODE", Params(channel, w))
            <==> Request.Intact(Params(channel, w))
  {
    SentIsLine(origin, channel, w);
    Request.ParseExact(origin, "MODE", Params(channel, w));
  }

  /** Then a server that parses it ends with the channel of the sender. */
  lemma WireReplay(env: Env, core: Core, lists: Lists, params: seq<string>,
                   peer: Env, lists1: Lists, origin: string, channel: string)
    requires params != [] && Sound(core) && peer.kind == Server && peer.ids == env.ids && ' ' !in origin
    requires var w := Command(env, core, lists, params); Broadcast(w) && Request.Intact(Params(channel, w))
    ensures var w := Command(env, core, lists, params);
            Received(peer, core, lists1, Sent(origin, channel, w)) == w.core
  {
    var w := Command(env, core, lists, params);
    WireExact(origin, channel, w);
    assert Params(channel, w)[1..] == Message(w);
    Replay(env, core, lists, params, peer, lists1);
  }

  // ------------------------------------------------- parameters that are safe

  /** No white space anywhere and no colon at the start. */
  predicate Tidy(s: string) {
    (forall i :: 0 <= i < |s| ==> !Request.White(s[i])) && (s != [] ==> s[0] != ':')
  }

  predicate AllTidy(q: seq<string>) { forall i :: 0 <= i < |q| ==> Tidy(q[i]) }

  predicate TidyDiff(d: Diff) {
    d.modes != [] && Tidy(d.modes) && AllTidy(d.args) && forall i :: 0 <= i < |d.args| ==> d.args[i] != []
  }

  lemma ReportTidy(w: Walk, core: Core, letters: string, a: string)
    requires TidyDiff(w.diff) && Tidy(a) && a != []
    requires letters == [] || (|letters| == 1 && !Request.White(letters[0]))
    ensures TidyDiff(Report(w, core, letters, [a]).diff) && TidyDiff(Report(w, core, letters, []).diff)
  {}

  lemma KeyTidy(env: Env, w: Walk, queue: seq<string>)
    requires TidyDiff(w.diff) && AllTidy(queue)
    ensures TidyDiff(DoKey(env, w, queue).w.diff)
  {
    if !w.add {
      ReportTidy(Counted(w), SetFlag(w.core, false, 'k'), ['k'], "*");
    } else if queue != [] && queue[0] != [] {
      var core := SetKey(w.core, queue[0]);
      assert Tidy(queue[0]);
      ReportTidy(Counted(w), core, Fresh(w.core, 'k'), core.key);
    }
  }

  lemma LimitTidy(env: Env, w: Walk, queue: seq<string>)
    requires TidyDiff(w.diff)
    ensures TidyDiff(DoLimit(env, w, queue).w.diff)
  {
    if w.add && queue != [] && Atol(queue[0]) > 0 {
      var l := Atol(queue[0]);
      ReportTidy(Counted(w), SetLimit(w.core, l), Fresh(w.core, 'l'), Decimal(l));
    } else {
      ReportTidy(Counted(w), SetFlag(w.core, false, 'l'), ['l'], "*");
    }
  }

  lemma MemberTidy(env: Env, w: Walk, c: char, queue: seq<string>)
    requires TidyDiff(w.diff) && AllTidy(env.ids) && !Request.White(c)
    ensures TidyDiff(DoMember(env, w, c, queue).w.diff)
  {
    if queue != [] {
      var client := FindClient(env.ids, queue[0]);
      if client >= 0 && client in w.core.members {
        ReportTidy(w, SetMember(w.core, w.add, c, client), [c], env.ids[client]);
      }
    }
  }

  lemma CharTidy(env: Env, c: char, queue: seq<string>, w: Walk)
    requires TidyDiff(w.diff) && AllTidy(queue) && AllTidy(env.ids) && !Request.White(c)
    ensures TidyDiff(ModeChar(env, c, queue, w).w.diff)
  {
    var n := Note(env, w);
    if c == 'k' {
      KeyTidy(env, n, queue);
    } else if c == 'l' {
      LimitTidy(env, n, queue);
    } else if MemberMode(c) {
      MemberTidy(env, n, c, queue);
    } else if !ListMode(c) {
      ReportTidy(n, SetFlag(n.core, n.add, c), [c], "*");
    }
  }

  lemma {:induction false} InterpretTidy(env: Env, cur: string, queue: seq<string>, w: Walk)
    requires TidyDiff(w.diff) && AllTidy(queue) && AllTidy(env.ids)
    requires forall i :: 0 <= i < |cur| ==> !Request.White(cur[i])
    ensures TidyDiff(Interpret(env, cur, queue, w).diff)
    decreases |queue|, |cur|
  {
    if cur == [] {
      if queue != [] && queue[0] != [] { InterpretTidy(env, queue[0], queue[1..], w); }
    } else if IsSign(cur[0]) {
      InterpretTidy(env, cur[1..], queue, Sign(w, cur[0]));
    } else {
      CharTidy(env, cur[0], queue, w);
      var s := ModeChar(env, cur[0], queue, w);
      if s.Go? { InterpretTidy(env, cur[1..], s.queue, s.w); }
    }
  }

  /** Parameters and client ids without white space and leading colons give a
      broadcast that arrives, as long as its arguments are not too many. */
  lemma TidyArrives(env: Env, core: Core, lists: Lists, params: seq<string>, channel: string)
    requires params != [] && AllTidy(params) && AllTidy(env.ids) && channel != [] && Tidy(channel)
    requires Broadcast(Command(env, core, lists, params))
    ensures var w := Command(env, core, lists, params);
            Request.Intact(Params(channel, w)) <==> |w.diff.args| <= 13
  {
    var m := params[0];
    assert Tidy(m);
    InterpretTidy(env, if m != [] && IsSign(m[0]) then m[1..] else m, params[1..],
                  Start(core, lists, m == [] || m[0] != '-'));
    var w := Command(env, core, lists, params);
    TidyIntact(channel, w);
  }

  lemma TidyIntact(channel: string, w: Walk)
    requires channel != [] && Tidy(channel) && TidyDiff(w.diff) && Broadcast(w)
    ensures Request.Intact(Params(channel, w)) <==> |w.diff.args| <= 13
  {
    var p := Params(channel, w);
    forall i | 0 <= i < |p| ensures p[i] != [] && Tidy(p[i]) {
      if i > 1 { assert p[i] == w.diff.args[i - 2]; }
    }
  }

  // ------------------------------------------------------------- the key

  /** A server's +k with nothing behind it, and with a key. */
  lemma KeyCommand(peer: Env, core: Core, lists: Lists, key: string)
    requires peer.kind == Server
    ensures Command(peer, core, lists, ["+k"]).core == core
    ensures var w := Command(peer, core, lists, ["+k", key]);
            if key == [] || ' ' in key then w.core == core
            else w.core == SetKey(core, key) && w.diff == Diff("+" + Fresh(core, 'k'), [w.core.key])
  {
    assert "+k"[1..] == "k" && "k"[1..] == [];
    assert ["+k"][1..] == [] && ["+k", key][1..] == [key] && [key][1..] == [];
    var start := Start(core, lists, true);
    assert ModeChar(peer, 'k', [], start).Exit?;
    var s := ModeChar(peer, 'k', [key], start);
    assert Interpret(peer, "k", [key], start) == if s.Exit? then s.w else Interpret(peer, [], [], s.w);
  }

  /** What the +k of a server sends. */
  lemma KeySent(env: Env, core: Core, lists: Lists, key: string, channel: string)
    requires env.kind == Server && Sound(core) && key != [] && |key| < CLIENT_PASS_LEN && ' ' !in key
    ensures var w := Command(env, core, lists, ["+k", key]);
            w.core == SetKey(core, key) && w.core.key == key && Broadcast(w)
            && Params(channel, w) == [channel, "+k"] + [key]
  {
    var w := Command(env, core, lists, ["+k", key]);
    KeyCommand(env, core, lists, key);
    assert w.diff.modes == "+k" && Trimmed("+k") == "+k";
    assert Message(w) == ["+k"] + [key];
  }

  /** What is read of a key: itself, or something shorter. */
  lemma LastRead(key: string)
    requires key != [] && ' ' !in key
    ensures var last := Request.Last(key);
            if key[0] != ':' && !Request.White(key[|key| - 1]) then last == [key]
            else last == [] || (|last[0]| < |key| && ' ' !in last[0])
  {
    Request.TrimRightIn(key);
    Request.TrimRightIn(key[1..]);
    Request.TrimRightSize(key);
    Request.TrimRightSize(key[1..]);
  }

  /** The channel after a line that says +k and at most one argument. */
  lemma KeyReceived(peer: Env, core: Core, lists: Lists, line: string, origin: string, channel: string, last: seq<string>)
    requires peer.kind == Server && |last| <= 1
    requires Request.Parse(line) == Request.Request(Request.From(origin), "MODE", [channel, "+k"] + last)
    ensures Received(peer, core, lists, line)
            == if last == [] || last[0] == [] || ' ' in last[0] then core else SetKey(core, last[0])
  {
    var argv := [channel, "+k"] + last;
    if last == [] {
      assert argv[1..] == ["+k"];
      KeyCommand(peer, core, lists, []);
    } else {
      assert argv[1..] == ["+k", last[0]];
      KeyCommand(peer, core, lists, last[0]);
    }
  }

  /** Exactly the keys without a colon at the start and white space at the end
      get to the other servers. */
  lemma KeyArrives(env: Env, core: Core, lists: Lists, key: string, peer: Env, lists1: Lists,
                   origin: string, channel: string)
    requires env.kind == Server && peer.kind == Server && Sound(core)
    requires ' ' !in origin && Request.Plain(channel)
    requires key != [] && |key| < CLIENT_PASS_LEN && ' ' !in key && key != core.key
    ensures var w := Command(env, core, lists, ["+k", key]);
            && Broadcast(w) && w.core.key == key
            && (Received(peer, core, lists1, Sent(origin, channel, w)) == w.core
                <==> key[0] != ':' && !Request.White(key[|key| - 1]))
  {
    var w := Command(env, core, lists, ["+k", key]);
    KeySent(env, core, lists, key, channel);
    SentIsLine(origin, channel, w);
    Request.ParseLast(origin, "MODE", [channel, "+k"], key);
    LastRead(key);
    KeyReceived(peer, core, lists1, Sent(origin, channel, w), origin, channel, Request.Last(key));
  }
}
