/** Who can change what: MODE commands of ordinary users. */
module ModePrivilege {
  import opened Defines
  import opened ChannelMode

  /** Neither a server, a service nor an operator with OperCanMode. */
  predicate Ordinary(env: Env) { env.kind == User && !env.oper }

  function ModesOf(core: Core, m: nat): string {
    if m in core.members then core.members[m] else ""
  }

  /** Did the member have the privileges of a tier when the command came in? */
  predicate HadOwner(core: Core, m: nat) { 'q' in ModesOf(core, m) }
  predicate HadAdmin(core: Core, m: nat) { HadOwner(core, m) || 'a' in ModesOf(core, m) }
  predicate HadOp(core: Core, m: nat) { HadAdmin(core, m) || 'o' in ModesOf(core, m) }
  predicate HadHalf(core: Core, m: nat) { HadOp(core, m) || 'h' in ModesOf(core, m) }

  /** The tier needed to give or take a member mode. */
  predicate HadTier(core: Core, m: nat, d: char) {
    if d == 'q' then HadOwner(core, m)
    else if d == 'a' then HadAdmin(core, m)
    else if d == 'o' || d == 'h' then HadOp(core, m)
    else HadHalf(core, m)
  }

  lemma {:induction false} SetModeOther(s: string, add: bool, c: char, d: char)
    requires d != c
    ensures d in SetMode(s, add, c) <==> d in s
  {
    WithoutMembers(s, c, d);
  }

  lemma RenewedOther(s: string, c: char, d: char)
    requires d != c
    ensures d in Renewed(s, c) <==> d in s
  {
    WithoutMembers(s, c, d);
  }

  lemma KeyLimitMembers(env: Env, c: char, queue: seq<string>, w: Walk)
    ensures var w1 := DoKey(env, w, queue).w; w1.rights == w.rights && w1.core.members == w.core.members
    ensures var w1 := DoLimit(env, w, queue).w; w1.rights == w.rights && w1.core.members == w.core.members
  {}

  lemma ListMembers(env: Env, c: char, queue: seq<string>, w: Walk)
    ensures var w1 := DoList(env, w, c, queue).w; w1.rights == w.rights && w1.core == w.core
  {}

  lemma GiveMembers(env: Env, w: Walk, c: char, queue: seq<string>, m: nat, d: char)
    requires MemberMode(c)
    ensures var w1 := DoMember(env, w, c, queue).w;
            && w1.rights == w.rights
            && w1.core.modes == w.core.modes
            && w1.core.members.Keys == w.core.members.Keys
            && ((d in ModesOf(w1.core, m)) != (d in ModesOf(w.core, m)) ==>
                  d == c && MayGive(env, w.rights, c) && Half(env, w.rights))
  {
    if d != c { SetModeOther(ModesOf(w.core, m), w.add, c, d); }
  }

  /** A character changes the modes of members only if it is a member mode the
      sender may give, and then only that letter. */
  lemma StepMember(env: Env, c: char, queue: seq<string>, w: Walk, m: nat, d: char)
    requires Ordinary(env)
    ensures var w1 := ModeChar(env, c, queue, w).w; var r := Note(env, w).rights;
            && w1.rights == r
            && w1.core.members.Keys == w.core.members.Keys
            && ((d in ModesOf(w1.core, m)) != (d in ModesOf(w.core, m)) ==>
                  d == c && MemberMode(c) && MayGive(env, r, c) && Half(env, r))
  {
    var n := Note(env, w);
    if c == 'k' || c == 'l' {
      KeyLimitMembers(env, c, queue, n);
    } else if MemberMode(c) {
      GiveMembers(env, n, c, queue, m, d);
    } else if ListMode(c) {
      ListMembers(env, c, queue, n);
    }
  }

  /** Without half-operator privileges nothing changes at all. */
  lemma StepNothing(env: Env, c: char, queue: seq<string>, w: Walk)
    requires Ordinary(env) && !Half(env, Note(env, w).rights)
    ensures var w1 := ModeChar(env, c, queue, w).w; w1.core == w.core && w1.lists == w.lists
  {}

  lemma KeyLimitOperFlag(env: Env, queue: seq<string>, w: Walk, d: char)
    requires OperFlag(d)
    ensures d in DoKey(env, w, queue).w.core.modes ==> d in w.core.modes
    ensures d in DoLimit(env, w, queue).w.core.modes ==> d in w.core.modes
  {
    RenewedOther(w.core.modes, 'k', d);
    RenewedOther(w.core.modes, 'l', d);
    WithoutMembers(w.core.modes, 'k', d);
    WithoutMembers(w.core.modes, 'l', d);
  }

  /** The flags O and P are never set. */
  lemma StepOperFlag(env: Env, c: char, queue: seq<string>, w: Walk, d: char)
    requires Ordinary(env) && OperFlag(d)
    ensures d in ModeChar(env, c, queue, w).w.core.modes ==> d in w.core.modes
  {
    var n := Note(env, w);
    if c == 'k' || c == 'l' {
      KeyLimitOperFlag(env, queue, n, d);
    } else if MemberMode(c) {
      GiveMembers(env, n, c, queue, 0, d);
    } else if ListMode(c) {
      ListMembers(env, c, queue, n);
    } else if c != d {
      SetModeOther(w.core.modes, w.add, c, d);
    } else {
      WithoutMembers(w.core.modes, c, d);
    }
  }

  /** Rights noted in this command come from modes held at its start, and the
      letter `d` of member `m` changed only if the sender had the tier for it. */
  predicate Bounded(env: Env, core0: Core, lists0: Lists, w: Walk, m: nat, d: char) {
    && w.core.members.Keys == core0.members.Keys
    && (w.rights.owner ==> HadOwner(core0, env.who))
    && (w.rights.admin ==> HadAdmin(core0, env.who))
    && (w.rights.op ==> HadOp(core0, env.who))
    && (w.rights.half ==> HadHalf(core0, env.who))
    && Kept(env, core0, w.core, env.who, 'q') && Kept(env, core0, w.core, env.who, 'a')
    && Kept(env, core0, w.core, env.who, 'o') && Kept(env, core0, w.core, env.who, 'h')
    && Kept(env, core0, w.core, m, d)
    && (OperFlag(d) && d in w.core.modes ==> d in core0.modes)
    && (!HadHalf(core0, env.who) ==> w.core == core0 && w.lists == lists0)
  }

  predicate Kept(env: Env, core0: Core, core: Core, m: nat, d: char) {
    (d in ModesOf(core, m)) != (d in ModesOf(core0, m)) ==> MemberMode(d) && HadTier(core0, env.who, d)
  }

  lemma StepKept(env: Env, core0: Core, c: char, queue: seq<string>, w: Walk, m: nat, d: char)
    requires Ordinary(env) && Kept(env, core0, w.core, m, d)
    requires var r := Note(env, w).rights;
             && (r.owner ==> HadOwner(core0, env.who)) && (r.admin ==> HadAdmin(core0, env.who))
             && (r.op ==> HadOp(core0, env.who)) && (r.half ==> HadHalf(core0, env.who))
    ensures Kept(env, core0, ModeChar(env, c, queue, w).w.core, m, d)
  {
    StepMember(env, c, queue, w, m, d);
  }

  lemma StepBounded(env: Env, core0: Core, lists0: Lists, c: char, queue: seq<string>, w: Walk, m: nat, d: char)
    requires Ordinary(env) && Bounded(env, core0, lists0, w, m, d)
    ensures Bounded(env, core0, lists0, ModeChar(env, c, queue, w).w, m, d)
  {
    StepKept(env, core0, c, queue, w, env.who, 'q');
    StepKept(env, core0, c, queue, w, env.who, 'a');
    StepKept(env, core0, c, queue, w, env.who, 'o');
    StepKept(env, core0, c, queue, w, env.who, 'h');
    StepKept(env, core0, c, queue, w, m, d);
    StepMember(env, c, queue, w, m, d);
    if OperFlag(d) { StepOperFlag(env, c, queue, w, d); }
    if !HadHalf(core0, env.who) { StepNothing(env, c, queue, w); }
  }

  lemma {:induction false} InterpretBounded(
    env: Env, core0: Core, lists0: Lists, cur: string, queue: seq<string>, w: Walk, m: nat, d: char)
    requires Ordinary(env) && Bounded(env, core0, lists0, w, m, d)
    ensures Bounded(env, core0, lists0, Interpret(env, cur, queue, w), m, d)
    decreases |queue|, |cur|
  {
    if cur == [] {
      if queue != [] && queue[0] != [] { InterpretBounded(env, core0, lists0, queue[0], queue[1..], w, m, d); }
    } else if IsSign(cur[0]) {
      InterpretBounded(env, core0, lists0, cur[1..], queue, Sign(w, cur[0]), m, d);
    } else {
      StepBounded(env, core0, lists0, cur[0], queue, w, m, d);
      var s := ModeChar(env, cur[0], queue, w);
      if s.Go? { InterpretBounded(env, core0, lists0, cur[1..], s.queue, s.w, m, d); }
    }
  }

  /** State of a channel as far as MODE changes it. */
  datatype State = State(core: Core, lists: Lists)

  /** A command of an ordinary user; who is not on the channel is refused. */
  function Execute(s: State, env: Env, params: seq<string>): State {
    if params == [] || env.who !in s.core.members then s
    else var w := Command(env, s.core, s.lists, params); State(w.core, w.lists)
  }

  /** One command: a letter of a member changes only if the sender held the
      tier that the letter needs when the command came in, O and P are never
      set, and without any of q, a, o, h nothing changes. */
  lemma Authority(s: State, env: Env, params: seq<string>, m: nat, d: char)
    requires Ordinary(env)
    ensures var t := Execute(s, env, params);
            && t.core.members.Keys == s.core.members.Keys
            && ((d in ModesOf(t.core, m)) != (d in ModesOf(s.core, m)) ==>
                  MemberMode(d) && HadTier(s.core, env.who, d))
            && (OperFlag(d) && d in t.core.modes ==> d in s.core.modes)
            && (!HadHalf(s.core, env.who) ==> t == s)
  {
    if params != [] && env.who in s.core.members {
      var p := params[0];
      var cur := if p != [] && IsSign(p[0]) then p[1..] else p;
      InterpretBounded(env, s.core, s.lists, cur, params[1..],
                       Start(s.core, s.lists, p == [] || p[0] != '-'), m, d);
    }
  }

  // ---------------------------------------------------------------- runs

  datatype Request = Request(env: Env, params: seq<string>)

  function Run(s: State, run: seq<Request>): State
    decreases run
  {
    if run == [] then s
    else Run(Execute(s, run[0].env, run[0].params), run[1..])
  }

  predicate OrdinaryRun(run: seq<Request>) {
    forall i :: 0 <= i < |run| ==> Ordinary(run[i].env)
  }

  ghost predicate NoOwner(core: Core) { forall m :: !HadOwner(core, m) }
  ghost predicate NoAdmin(core: Core) { forall m :: !HadAdmin(core, m) }
  ghost predicate NoOp(core: Core) { forall m :: !HadOp(core, m) }
  ghost predicate NoHalf(core: Core) { forall m :: !HadHalf(core, m) }

  lemma StepTiers(s: State, env: Env, params: seq<string>)
    requires Ordinary(env)
    ensures var t := Execute(s, env, params);
            && (NoOwner(s.core) ==> NoOwner(t.core))
            && (NoAdmin(s.core) ==> NoAdmin(t.core))
            && (NoOp(s.core) ==> NoOp(t.core) && forall m :: 'h' in ModesOf(t.core, m) <==> 'h' in ModesOf(s.core, m))
            && (NoHalf(s.core) ==> t == s)
            && ('O' in t.core.modes ==> 'O' in s.core.modes)
            && ('P' in t.core.modes ==> 'P' in s.core.modes)
  {
    var t := Execute(s, env, params);
    forall m
      ensures HadOwner(t.core, m) ==> HadOwner(s.core, m) || HadOwner(s.core, env.who)
      ensures HadAdmin(t.core, m) ==> HadAdmin(s.core, m) || HadAdmin(s.core, env.who)
      ensures HadOp(t.core, m) ==> HadOp(s.core, m) || HadOp(s.core, env.who)
      ensures ('h' in ModesOf(t.core, m)) != ('h' in ModesOf(s.core, m)) ==> HadOp(s.core, env.who)
    {
      Authority(s, env, params, m, 'q');
      Authority(s, env, params, m, 'a');
      Authority(s, env, params, m, 'o');
      Authority(s, env, params, m, 'h');
    }
    Authority(s, env, params, 0, 'O');
    Authority(s, env, params, 0, 'P');
  }

  /** Every run of MODE commands of ordinary users: no owner appears unless
      there was one, no admin without owner or admin, no operator and no new
      half-operator without one of the tiers above, O and P are never set, and
      with no holder of any tier nothing ever changes. */
  lemma {:induction false} RunTiers(s: State, run: seq<Request>)
    requires OrdinaryRun(run)
    ensures var t := Run(s, run);
            && (NoOwner(s.core) ==> NoOwner(t.core))
            && (NoAdmin(s.core) ==> NoAdmin(t.core))
            && (NoOp(s.core) ==> NoOp(t.core) && forall m :: 'h' in ModesOf(t.core, m) <==> 'h' in ModesOf(s.core, m))
            && (NoHalf(s.core) ==> t == s)
            && ('O' in t.core.modes ==> 'O' in s.core.modes)
            && ('P' in t.core.modes ==> 'P' in s.core.modes)
    decreases run
  {
    if run != [] {
      StepTiers(s, run[0].env, run[0].params);
      RunTiers(Execute(s, run[0].env, run[0].params), run[1..]);
    }
  }
}
