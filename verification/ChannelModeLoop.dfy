/** `Channel_Mode` as it runs: a pointer into the current mode string, the two
    argument indices, the privilege flags and the reply being built, and the
    channel updated in place; proved to do what the walk of `ChannelMode` does. */
module ChannelModeLoop {
  import opened Defines
  import opened CStrings
  import opened Directory
  import opened Masks
  import opened ChannelMode
  import opened ModeBuffer

  /** The mode string is a buffer; the other fields are values. */
  class ChannelObject {
    const name: string
    const modes: array<char>
    var key: string
    var limit: nat
    var members: map<nat, string>
    var lists: Lists

    ghost predicate Valid()
      reads this, modes
    {
      modes.Length == CHANNEL_MODE_LEN && Terminated(modes[..])
    }

    ghost function State(): Core
      reads this, modes
      requires Valid()
    {
      Core(CStr(modes[..]), key, limit, members)
    }

    constructor (name: string)
      ensures Valid() && this.name == name && fresh(modes)
      ensures State() == Core("", "", 0, map[]) && lists == Lists([], [], [])
    {
      this.name, key, limit, members, lists := name, "", 0, map[], Lists([], [], []);
      modes := new char[CHANNEL_MODE_LEN](_ => '\0');
      new;
      assert modes[..][0] == '\0';
    }
  }

  /** Is the command interpreted at all? Modeless channels, queries and users
      that are not on the channel are answered without a change. */
  predicate Accepted(name: string, env: Env, members: map<nat, string>, argc: nat) {
    && !(name != [] && name[0] == '+')
    && argc > 1
    && (env.who in members || env.oper || env.Machine())
  }

  /** Where the interpreter stands in the parameters: `ptr` points into the
      mode string `argv[modeArg]`, `argArg` is the next argument or -1. */
  class Cursor {
    const argv: array<CString>
    var modeArg: nat
    var argArg: int
    var modeStr: CString
    var ptr: nat
    var skipOnce: bool

    ghost predicate Valid()
      reads this
    {
      && modeArg < argv.Length
      && (argArg == -1 || modeArg < argArg <= argv.Length)
      && (if skipOnce then ptr <= |modeStr| else ptr < |modeStr|)
    }

    /** Mode characters still to be read from the current string. */
    ghost function Cur(): string
      reads this
      requires Valid()
    {
      modeStr[if skipOnce then ptr else ptr + 1..]
    }

    /** Arguments not used up yet. */
    ghost function Rest(): seq<string>
      reads this, argv
      requires Valid()
    {
      if argArg < 0 then [] else argv[argArg..]
    }

    constructor (argv: array<CString>)
      requires argv.Length > 1
      ensures Valid() && this.argv == argv
      ensures var m := argv[1]; Cur() == if m != [] && IsSign(m[0]) then m[1..] else m
      ensures Rest() == argv[1..][1..]
    {
      this.argv := argv;
      modeArg := 1;
      modeStr, ptr := argv[1], 0;
      argArg := if argv.Length > 2 then 2 else -1;
      skipOnce := argv[1] == [] || !IsSign(argv[1][0]);
    }

    /** To the next mode character: the current string, or the next argument
        that was not used up. */
    method Advance() returns (more: bool, c: char)
      requires Valid()
      modifies this
      ensures more ==> Valid() && c != '\0'
      ensures more == (old(Cur()) != [] || (old(Rest()) != [] && old(Rest())[0] != []))
      ensures old(Cur()) != [] ==> c == old(Cur())[0] && Cur() == old(Cur())[1..] && Rest() == old(Rest())
      ensures old(Cur()) == [] && more ==>
                c == old(Rest())[0][0] && Cur() == old(Rest())[0][1..] && Rest() == old(Rest())[1..]
    {
      if !skipOnce {
        ptr := ptr + 1;
      }
      if ptr == |modeStr| {
        if argArg < 0 {
          return false, ' ';
        }
        modeArg := argArg;
        if modeArg >= argv.Length {
          return false, ' ';
        }
        modeStr, ptr := argv[modeArg], 0;
        if modeStr == [] {
          return false, ' ';
        }
        argArg := if argv.Length > modeArg + 1 then modeArg + 1 else -1;
      }
      skipOnce := false;
      assert modeStr[ptr] in modeStr;
      return true, modeStr[ptr];
    }

    /** Is there an argument left, and which? */
    method Argument() returns (has: bool, arg: string)
      requires Valid()
      modifies this`argArg
      ensures Valid() && Cur() == old(Cur()) && Rest() == old(Rest())
      ensures has == (Rest() != []) && (has ==> arg == Rest()[0])
    {
      if argArg >= argv.Length {
        argArg := -1;
      }
      has := argArg > modeArg;
      arg := if has then argv[argArg] else "";
    }

    /** The argument is used up; most modes also blank it. */
    method Use(blank: bool)
      requires Valid() && Rest() != []
      modifies this`argArg, argv
      ensures Valid() && Cur() == old(Cur()) && Rest() == old(Rest())[1..]
    {
      if blank {
        argv[argArg] := "";
      }
      argArg := argArg + 1;
    }
  }

  // ------------------------------------------------- the end of the switch

  /** What the code behind the switch makes of the locals it finds: `x` holds a
      mode change, `client` is its target or -1, `argadd` an argument to report. */
  function TailStep(env: Env, w: Walk, c: char, x: bool, argadd: string, client: int, queue: seq<string>): Step
    requires client < |env.ids|
  {
    if !x then Go(w, queue)
    else if client >= 0 && client !in w.core.members then Reply(env, w, queue)
    else Go(TailWalk(env, w, c, argadd, client), queue)
  }

  function TailWalk(env: Env, w: Walk, c: char, argadd: string, client: int): Walk
    requires client < |env.ids| && (client >= 0 ==> client in w.core.members)
  {
    var w1 :=
      if client < 0 then
        if w.add == (c in w.core.modes) then w else Report(w, SetFlag(w.core, w.add, c), [c], [])
      else
        if w.add == (c in w.core.members[client]) then w
        else Report(w, SetMember(w.core, w.add, c, client), [c], [env.ids[client]]);
    if argadd == "" then w1 else w1.(diff := w1.diff.(args := w1.diff.args + [argadd]))
  }

  /** The key is stored and its letter off: the tail does the rest. */
  lemma KeyTail(env: Env, w: Walk, queue: seq<string>)
    requires w.add && queue != [] && queue[0] != [] && ' ' !in queue[0] && Half(env, w.rights)
    ensures var key := Cut(queue[0], CLIENT_PASS_LEN);
            var w1 := w.(core := w.core.(modes := WithoutMode(w.core.modes, 'k'), key := key));
            TailStep(env, w1, 'k', true, key, -1, queue[1..]) == AddKey(env, w, queue)
  {}

  /** Without plus sign the letter and the star do. */
  lemma KeyOffTail(env: Env, w: Walk, queue: seq<string>)
    requires !w.add && Half(env, w.rights)
    ensures TailStep(env, w, 'k', true, if 'k' in w.core.modes then "*" else "", -1, if queue == [] then queue else queue[1..])
            == DelKey(env, w, queue)
  {}

  lemma LimitTail(env: Env, w: Walk, queue: seq<string>)
    requires w.add && queue != [] && 0 < Atol(queue[0]) < 0xFFFF && Half(env, w.rights)
    ensures var l := Atol(queue[0]);
            var w1 := w.(core := w.core.(modes := WithoutMode(w.core.modes, 'l'), limit := l));
            TailStep(env, w1, 'l', true, Decimal(l), -1, queue[1..]) == AddLimit(env, w, queue)
  {}

  /** The locals of `Channel_Mode` that live through the loop. */
  class Session {
    const chan: ChannelObject
    const env: Env
    var add: bool
    var rights: Rights
    var count: nat
    var diff: Diff
    var replies: nat

    ghost function Walk(): Walk
      reads this, chan, chan.modes
      requires chan.Valid()
    {
      ChannelMode.Walk(chan.State(), chan.lists, add, rights, count, diff, replies)
    }

    constructor (chan: ChannelObject, env: Env, add: bool)
      requires chan.Valid()
      ensures this.chan == chan && this.env == env && Walk() == Start(chan.State(), chan.lists, add)
    {
      this.chan, this.env, this.add := chan, env, add;
      rights, count, replies := Rights(false, false, false, false), 0, 0;
      diff := Diff(if add then "+" else "-", []);
    }

    /** A reply to the sender. */
    method Error() returns (connected: bool)
      requires chan.Valid()
      modifies this`replies
      ensures Walk() == old(Walk()).(replies := old(replies) + 1) && connected == env.write(old(replies))
    {
      connected := env.write(replies);
      replies := replies + 1;
    }

    /** A sign in the mode string. */
    method Sign(c: char)
      requires chan.Valid() && IsSign(c)
      modifies this`add, this`diff
      ensures Walk() == ChannelMode.Sign(old(Walk()), c)
    {
      if add != (c == '+') {
        var n := |diff.modes|;
        if n > 0 && IsSign(diff.modes[n - 1]) {
          diff := diff.(modes := diff.modes[..n - 1] + [c]);
        } else {
          diff := diff.(modes := diff.modes + [c]);
        }
        add := c == '+';
      }
    }

    /** The privilege flags, looked up before every mode. */
    method LookUp()
      requires chan.Valid()
      modifies this`rights
      ensures Walk() == Note(env, old(Walk()))
    {
      if !env.Machine() && !env.oper && env.who in chan.members {
        var m := chan.members[env.who];
        if 'q' in m {
          rights := rights.(owner := true);
        }
        if 'a' in m {
          rights := rights.(admin := true);
        }
        if 'o' in m {
          rights := rights.(op := true);
        }
        if 'h' in m {
          rights := rights.(half := true);
        }
      }
    }

    /** The cases R, s, z, which fall through to i, V, M, m, n, N, Q, t. */
    method CaseFlag(c: char, ghost queue: seq<string>) returns (x: bool, go: bool)
      requires chan.Valid() && (OpFlag(c) || HalfFlag(c))
      modifies this`replies
      ensures go ==> TailStep(env, Walk(), c, x, "", -1, queue) == GuardedFlag(env, old(Walk()), c, queue)
      ensures !go ==> GuardedFlag(env, old(Walk()), c, queue) == Exit(Walk())
    {
      x, go := false, true;
      if OpFlag(c) {
        if !Op(env, rights) {
          go := Error();
          return false, false;
        }
      }
      if Half(env, rights) {
        x := true;
      } else {
        go := Error();
      }
    }

    /** The cases O and P, and letters the parser does not know. */
    method CaseOther(c: char, ghost queue: seq<string>) returns (x: bool, go: bool)
      requires chan.Valid() && !OpFlag(c) && !HalfFlag(c)
      modifies this`replies
      ensures go ==> TailStep(env, Walk(), c, x, "", -1, queue) == GuardedFlag(env, old(Walk()), c, queue)
      ensures !go ==> GuardedFlag(env, old(Walk()), c, queue) == Exit(Walk())
    {
      x, go := false, true;
      if OperFlag(c) {
        if add {
          if env.oper || env.Machine() {
            x := true;
          } else {
            go := Error();
          }
        } else if Op(env, rights) {
          x := true;
        } else {
          go := Error();
        }
      } else if env.kind != Server {
        go := Error();
      } else {
        x := true;
      }
    }

    /** `Mode_Limit_Reached` on the number of modes with an argument so far. */
    method Count() returns (reached: bool)
      requires chan.Valid()
      modifies this`count
      ensures Walk() == Counted(old(Walk())) && reached == LimitReached(env, old(Walk()))
    {
      reached := !env.Machine() && count >= MAX_HNDL_MODES_ARG;
      count := count + 1;
    }

    /** The case k without plus sign. */
    method CaseKeyOff(has: bool, ghost queue: seq<string>) returns (x: bool, argadd: string, used: bool, go: bool)
      requires chan.Valid() && !add && has == (queue != [])
      modifies this`replies
      ensures used ==> has
      ensures go ==> TailStep(env, Walk(), 'k', x, argadd, -1, if used then queue[1..] else queue)
                     == DelKey(env, old(Walk()), queue)
      ensures !go ==> DelKey(env, old(Walk()), queue) == Exit(Walk())
    {
      x, argadd, used, go := false, "", false, true;
      if Half(env, rights) {
        x := true;
        KeyOffTail(env, Walk(), queue);
        var k := Find(chan.modes, 'k');
        if chan.modes[k] == 'k' {
          argadd := "*";
        }
        used := has;
      } else {
        go := Error();
      }
    }

    /** The case k with plus sign: the old key mode is taken off, the key set. */
    method CaseKeyOn(has: bool, arg: string, ghost queue: seq<string>)
      returns (x: bool, argadd: string, used: bool, go: bool)
      requires chan.Valid() && add && has == (queue != []) && (has ==> arg == queue[0])
      modifies this`replies, chan`key, chan.modes
      ensures chan.Valid() && (used ==> has)
      ensures go ==> TailStep(env, Walk(), 'k', x, argadd, -1, if used then queue[1..] else queue)
                     == AddKey(env, old(Walk()), queue)
      ensures !go ==> AddKey(env, old(Walk()), queue) == Exit(Walk())
    {
      x, argadd, used, go := false, "", false, false;
      if !has || arg == [] || ' ' in arg {
        if !env.Machine() {
          var connected := Error();
        }
        return;
      }
      used := true;
      if Half(env, rights) {
        KeyTail(env, Walk(), queue);
        var had := ModeDel(chan.modes, 'k');
        chan.key := Cut(arg, CLIENT_PASS_LEN);
        argadd := chan.key;
        x, go := true, true;
      } else {
        go := Error();
      }
    }

    /** The case k. */
    method CaseKey(has: bool, arg: string, ghost queue: seq<string>)
      returns (x: bool, argadd: string, used: bool, go: bool)
      requires chan.Valid() && has == (queue != []) && (has ==> arg == queue[0])
      modifies this`replies, this`count, chan`key, chan.modes
      ensures chan.Valid() && (used ==> has)
      ensures go ==> TailStep(env, Walk(), 'k', x, argadd, -1, if used then queue[1..] else queue)
                     == DoKey(env, old(Walk()), queue)
      ensures !go ==> DoKey(env, old(Walk()), queue) == Exit(Walk())
    {
      var reached := Count();
      if reached {
        return false, "", false, false;
      }
      if !add {
        x, argadd, used, go := CaseKeyOff(has, queue);
      } else {
        x, argadd, used, go := CaseKeyOn(has, arg, queue);
      }
    }

    /** The case l with plus sign. */
    method CaseLimitOn(has: bool, arg: string, ghost queue: seq<string>)
      returns (x: bool, argadd: string, used: bool, go: bool)
      requires chan.Valid() && add && has == (queue != []) && (has ==> arg == queue[0])
      modifies this`replies, chan`limit, chan.modes
      ensures chan.Valid() && (used ==> has)
      ensures go ==> TailStep(env, Walk(), 'l', x, argadd, -1, if used then queue[1..] else queue)
                     == AddLimit(env, old(Walk()), queue)
      ensures !go ==> AddLimit(env, old(Walk()), queue) == Exit(Walk())
    {
      x, argadd, used, go := false, "", false, false;
      var l := Atol(arg);
      if !has || l <= 0 || l >= 0xFFFF {
        if !env.Machine() {
          var connected := Error();
        }
        return;
      }
      used := true;
      if Half(env, rights) {
        LimitTail(env, Walk(), queue);
        var had := ModeDel(chan.modes, 'l');
        chan.limit := l;
        argadd := Decimal(l);
        x, go := true, true;
      } else {
        go := Error();
      }
    }

    /** The case l. */
    method CaseLimit(has: bool, arg: string, ghost queue: seq<string>)
      returns (x: bool, argadd: string, used: bool, go: bool)
      requires chan.Valid() && has == (queue != []) && (has ==> arg == queue[0])
      modifies this`replies, this`count, chan`limit, chan.modes
      ensures chan.Valid() && (used ==> has)
      ensures go ==> TailStep(env, Walk(), 'l', x, argadd, -1, if used then queue[1..] else queue)
                     == DoLimit(env, old(Walk()), queue)
      ensures !go ==> DoLimit(env, old(Walk()), queue) == Exit(Walk())
    {
      x, argadd, used, go := false, "", false, true;
      var reached := Count();
      if reached {
        return false, "", false, false;
      }
      if add {
        x, argadd, used, go := CaseLimitOn(has, arg, queue);
      } else if Half(env, rights) {
        x := true;
      } else {
        go := Error();
      }
    }

    /** The guards of q, a, o and h; each case falls through to the next. */
    method Guards(c: char) returns (pass: bool)
      requires chan.Valid() && MemberMode(c)
      modifies this`replies
      ensures pass == MayGive(env, rights, c)
      ensures Walk() == if pass then old(Walk()) else old(Walk()).(replies := old(replies) + 1)
    {
      pass := true;
      if c == 'q' {
        pass := Owner(env, rights);
      }
      if pass && (c == 'q' || c == 'a') {
        pass := Admin(env, rights);
      }
      if pass && c != 'h' && c != 'v' {
        pass := Op(env, rights);
      }
      if pass && c != 'v' {
        pass := Op(env, rights);
      }
      if !pass {
        var connected := Error();
      }
    }

    /** The cases q, a, o, h, which fall through to v. */
    method CaseMember(c: char, has: bool, arg: string, ghost queue: seq<string>)
      returns (x: bool, client: int, used: bool, go: bool)
      requires chan.Valid() && MemberMode(c) && has == (queue != []) && (has ==> arg == queue[0])
      modifies this`replies
      ensures (used ==> has) && client < |env.ids|
      ensures go ==> TailStep(env, Walk(), c, x, "", client, if used then queue[1..] else queue)
                     == DoMember(env, old(Walk()), c, queue)
      ensures !go ==> DoMember(env, old(Walk()), c, queue) == Exit(Walk())
    {
      x, client, used, go := false, -1, false, false;
      var pass := Guards(c);
      if !pass || !has {
        return;
      }
      used := true;
      if Half(env, rights) {
        client := FindClient(env.ids, arg);
        if client >= 0 {
          x, go := true, true;
        } else {
          go := Error();
        }
      } else {
        go := Error();
      }
    }

    /** `Add_To_List` and `Del_From_List` with the confirmation. */
    method ChangeList(c: char, pattern: string, ghost rest: seq<string>) returns (connected: bool)
      requires chan.Valid() && ListMode(c)
      modifies this`replies, chan`lists
      ensures EditList(env, old(Walk()), c, MakeMask(pattern), rest) ==
              if connected then Go(Walk(), rest) else Exit(Walk())
    {
      var mask := MakeMask(pattern);
      var masks := GetList(chan.lists, c);
      connected := true;
      if add == Listed(masks, mask) {
        return;
      }
      if add {
        if env.kind == User && ListSize(chan.lists) >= MAX_HNDL_CHANNEL_LISTS {
          connected := Error();
          return;
        }
        chan.lists := PutList(chan.lists, c, [mask] + masks);
      } else {
        chan.lists := PutList(chan.lists, c, Unlisted(masks, mask));
      }
      if env.kind == User {
        connected := Error();
      }
    }

    /** The cases I, b and e. */
    method CaseList(c: char, has: bool, arg: string, ghost queue: seq<string>) returns (used: bool, go: bool)
      requires chan.Valid() && ListMode(c) && has == (queue != []) && (has ==> arg == queue[0])
      modifies this`replies, this`count, chan`lists
      ensures used ==> has
      ensures DoList(env, old(Walk()), c, queue) ==
              if go then Go(Walk(), if used then queue[1..] else queue) else Exit(Walk())
    {
      var reached := Count();
      if reached {
        return false, false;
      }
      used, go := has, true;
      if has {
        if Half(env, rights) {
          go := ChangeList(c, arg, queue[1..]);
        } else {
          go := Error();
        }
      }
    }

    /** The code behind the switch: the mode is changed and reported. */
    method Tail(c: char, x: bool, argadd: string, client: int, ghost queue: seq<string>) returns (go: bool)
      requires chan.Valid() && client < |env.ids| && c != '\0'
      modifies this`replies, this`diff, chan`members, chan.modes
      ensures chan.Valid()
      ensures TailStep(env, old(Walk()), c, x, argadd, client, queue) ==
              if go then Go(Walk(), queue) else Exit(Walk())
    {
      if !x {
        return true;
      }
      if client >= 0 && client !in chan.members {
        go := Error();
        return;
      }
      if client >= 0 {
        ChangeMember(c, client);
      } else {
        ChangeFlag(c);
      }
      if argadd != "" {
        diff := diff.(args := diff.args + [argadd]);
      }
      return true;
    }

    method ChangeMember(c: char, client: nat)
      requires chan.Valid() && client < |env.ids| && client in chan.members
      modifies this`diff, chan`members
      ensures Walk() == TailWalk(env, old(Walk()), c, "", client)
    {
      var m := chan.members[client];
      if add != (c in m) {
        chan.members := chan.members[client := SetMode(m, add, c)];
        diff := Diff(diff.modes + [c], diff.args + [env.ids[client]]);
      }
    }

    method ChangeFlag(c: char)
      requires chan.Valid() && c != '\0'
      modifies this`diff, chan.modes
      ensures chan.Valid() && Walk() == TailWalk(env, old(Walk()), c, "", -1)
    {
      var changed;
      if add {
        changed := ModeAdd(chan.modes, c);
      } else {
        changed := ModeDel(chan.modes, c);
      }
      if changed {
        diff := diff.(modes := diff.modes + [c]);
        assert diff.args + [] == diff.args;
      } else if !add {
        WithoutAbsent(old(CStr(chan.modes[..])), c);
      }
    }

    /** The switch on the mode character. */
    method Switch(c: char, has: bool, arg: string, ghost queue: seq<string>)
      returns (x: bool, argadd: string, client: int, used: bool, go: bool)
      requires chan.Valid() && has == (queue != []) && (has ==> arg == queue[0])
      modifies this`replies, this`count, this`rights, chan`key, chan`limit, chan`lists, chan.modes
      ensures chan.Valid() && (used ==> has) && client < |env.ids|
      ensures go ==> TailStep(env, Walk(), c, x, argadd, client, if used then queue[1..] else queue)
                     == ModeChar(env, c, queue, old(Walk()))
      ensures !go ==> ModeChar(env, c, queue, old(Walk())) == Exit(Walk())
    {
      x, argadd, client, used, go := false, "", -1, false, true;
      LookUp();
      if c == 'k' {
        x, argadd, used, go := CaseKey(has, arg, queue);
      } else if c == 'l' {
        x, argadd, used, go := CaseLimit(has, arg, queue);
      } else if MemberMode(c) {
        x, client, used, go := CaseMember(c, has, arg, queue);
      } else if ListMode(c) {
        used, go := CaseList(c, has, arg, queue);
      } else if OpFlag(c) || HalfFlag(c) {
        x, go := CaseFlag(c, queue);
      } else {
        x, go := CaseOther(c, queue);
      }
    }

    /** One mode character, with its argument if it takes one. */
    method Handle(cursor: Cursor, c: char) returns (go: bool)
      requires chan.Valid() && cursor.Valid() && c != '\0'
      modifies this, chan, chan.modes, cursor`argArg, cursor.argv
      ensures chan.Valid() && cursor.Valid() && cursor.Cur() == old(cursor.Cur())
      ensures ModeChar(env, c, old(cursor.Rest()), old(Walk())) ==
              if go then Go(Walk(), cursor.Rest()) else Exit(Walk())
    {
      ghost var queue := cursor.Rest();
      var has, arg := cursor.Argument();
      var blank := add || c != 'k';
      var x, argadd, client, used;
      x, argadd, client, used, go := Switch(c, has, arg, queue);
      if used {
        cursor.Use(blank);
      }
      if go {
        go := Tail(c, x, argadd, client, cursor.Rest());
      }
    }

    /** The loop of the interpreter. */
    method Loop(cursor: Cursor)
      requires chan.Valid() && cursor.Valid()
      modifies this, chan, chan.modes, cursor, cursor.argv
      ensures chan.Valid()
      ensures Walk() == Interpret(env, old(cursor.Cur()), old(cursor.Rest()), old(Walk()))
    {
      ghost var result := Interpret(env, cursor.Cur(), cursor.Rest(), Walk());
      while true
        invariant chan.Valid() && cursor.Valid()
        invariant Interpret(env, cursor.Cur(), cursor.Rest(), Walk()) == result
        decreases |cursor.Rest()|, |cursor.Cur()|
      {
        ghost var cur, rest := cursor.Cur(), cursor.Rest();
        var more, c := cursor.Advance();
        if !more {
          return;
        }
        if cur == [] { assert Interpret(env, rest[0], rest[1..], Walk()) == result; }
        if IsSign(c) {
          Sign(c);
        } else {
          var go := Handle(cursor, c);
          if !go {
            return;
          }
        }
      }
    }
  }

  /** `Channel_Mode` */
  method Run(chan: ChannelObject, env: Env, argv: array<CString>) returns (sent: bool, message: seq<string>)
    requires chan.Valid() && argv.Length >= 1
    modifies chan, chan.modes, argv
    ensures chan.Valid()
    ensures (chan.name != [] && chan.name[0] == '+') || argv.Length == 1
            || (env.who !in old(chan.members) && !env.oper && env.kind != Server && env.kind != Service) ==>
              !sent && chan.State() == old(chan.State()) && chan.lists == old(chan.lists)
    ensures (chan.name == [] || chan.name[0] != '+') && argv.Length > 1
            && (env.who in old(chan.members) || env.oper || env.kind == Server || env.kind == Service) ==>
              var w := Command(env, old(chan.State()), old(chan.lists), old(argv[1..]));
              && chan.State() == w.core && chan.lists == w.lists
              && sent == Broadcast(w) && (sent ==> message == Message(w))
  {
    if !Accepted(chan.name, env, chan.members, argv.Length) {
      return false, [];
    }
    var cursor := new Cursor(argv);
    var session := new Session(chan, env, argv[1] == [] || argv[1][0] != '-');
    ghost var result := Command(env, chan.State(), chan.lists, argv[1..]);
    session.Loop(cursor);
    assert session.Walk() == result;
    sent, message := |session.diff.modes| > 1, [];
    if sent {
      message := [Trimmed(session.diff.modes)] + session.diff.args;
    }
  }
}
