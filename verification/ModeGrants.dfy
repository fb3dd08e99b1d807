/** Who may change what with one MODE letter: for every sender and every letter
    the exact effect, told from the letters the sender holds on the channel. */
module ModeGrants {
  import opened Defines
  import opened CStrings
  import opened Directory
  import opened Masks
  import opened ChannelMode
  import opened ModePrivilege
  import Replay = ModeReplay

  /** Senders that need no privileges on the channel. */
  predicate Free(env: Env) { env.oper || env.kind == Server || env.kind == Service }

  /** A letter that takes no argument, whatever the sign. */
  predicate Bare(c: char) { c !in "+-klIbeqaohv" }

  /** May this sender change this flag of the channel? */
  predicate MayFlag(env: Env, core: Core, add: bool, c: char) {
    if c in "Rsz" then Free(env) || HadOp(core, env.who)
    else if c in "iVMmnNQt" then Free(env) || HadHalf(core, env.who)
    else if c in "OP" then Free(env) || (!add && HadOp(core, env.who))
    else env.kind == Server
  }

  predicate MayArgue(env: Env, core: Core) { Free(env) || HadHalf(core, env.who) }

  /** What the change of one letter leaves of a mode string, but for the order. */
  predicate Changed(was: string, now: string, add: bool, c: char) {
    multiset(now) ==
    if !add then multiset(was) - multiset{c}
    else if c !in was && |was| < 20 then multiset(was) + multiset{c}
    else multiset(was)
  }

  lemma {:induction false} WithoutCount(s: string, c: char)
    ensures multiset(WithoutMode(s, c)) == multiset(s) - multiset{c}
  {
    if s != [] {
      assert s == [s[0]] + s[1..];
      if s[0] != c { WithoutCount(s[1..], c); }
    }
  }

  lemma SetModeChanged(s: string, add: bool, c: char)
    ensures Changed(s, SetMode(s, add, c), add, c)
  {
    if !add { WithoutCount(s, c); }
  }

  function Text(add: bool, c: char): string { [if add then '+' else '-', c] }

  /** A command of one letter that leaves no argument is one step. */
  lemma OneLetter(env: Env, core: Core, lists: Lists, add: bool, c: char, queue: seq<string>, s: Step)
    requires !IsSign(c) && s == ModeChar(env, c, queue, Start(core, lists, add)) && (s.Go? ==> s.queue == [])
    ensures Command(env, core, lists, [Text(add, c)] + queue) == s.w
  {
    var m := Text(add, c);
    var params := [m] + queue;
    assert params[0] == m && params[1..] == queue;
    assert m[1..] == [c] && [c][1..] == [];
    assert s.Go? ==> Interpret(env, [], [], s.w) == s.w;
  }

  /** The privileges seen at the first letter are the letters of the sender. */
  lemma Noted(env: Env, core: Core, lists: Lists, add: bool)
    requires env.kind != Unregistered
    ensures var r := Note(env, Start(core, lists, add)).rights;
            && (Op(env, r) <==> Free(env) || HadOp(core, env.who))
            && (Half(env, r) <==> Free(env) || HadHalf(core, env.who))
            && (Admin(env, r) <==> Free(env) || HadAdmin(core, env.who))
            && (Owner(env, r) <==> Free(env) || HadOwner(core, env.who))
  {}

  // --------------------------------------------------------------- flags

  /** The guard of a flag, on the privileges seen so far. */
  predicate Passes(env: Env, r: Rights, add: bool, c: char) {
    if OpFlag(c) then Op(env, r)
    else if HalfFlag(c) then Half(env, r)
    else if !OperFlag(c) then env.kind == Server
    else if add then env.oper || env.Machine() else Op(env, r)
  }

  lemma MayPass(env: Env, core: Core, lists: Lists, add: bool, c: char)
    requires env.kind != Unregistered
    ensures MayFlag(env, core, add, c) <==> Passes(env, Note(env, Start(core, lists, add)).rights, add, c)
  {
    Noted(env, core, lists, add);
  }

  lemma BareLetter(c: char)
    requires Bare(c)
    ensures !IsSign(c) && c != 'k' && c != 'l' && !MemberMode(c) && !ListMode(c)
  {}

  lemma FlagSet(w: Walk, c: char)
    ensures DoFlag(w, c, []).Go? && DoFlag(w, c, []).queue == []
    ensures DoFlag(w, c, []).w.core == SetFlag(w.core, w.add, c) && DoFlag(w, c, []).w.lists == w.lists
  {
    if !w.add && c !in w.core.modes { WithoutAbsent(w.core.modes, c); }
  }

  lemma FlagStep(env: Env, w: Walk, c: char)
    ensures var s := GuardedFlag(env, w, c, []);
            && (s.Go? ==> s.queue == []) && s.w.lists == w.lists
            && s.w.core == if Passes(env, w.rights, w.add, c) then SetFlag(w.core, w.add, c) else w.core
  {
    FlagSet(w, c);
  }

  lemma FlagDone(env: Env, core: Core, lists: Lists, add: bool, c: char)
    requires env.kind != Unregistered && Bare(c)
    ensures var w := Command(env, core, lists, [Text(add, c)]);
            && w.lists == lists
            && w.core == if MayFlag(env, core, add, c) then SetFlag(core, add, c) else core
  {
    var start := Start(core, lists, add);
    BareLetter(c);
    FlagStep(env, Note(env, start), c);
    OneLetter(env, core, lists, add, c, [], ModeChar(env, c, [], start));
    assert [Text(add, c)] + [] == [Text(add, c)];
    MayPass(env, core, lists, add, c);
  }

  /** A flag changes exactly if the sender may change it; for R, s and z that
      takes q, a or o, for i, V, M, m, n, N, Q and t also h, O and P can only be
      taken off, and unknown letters are for servers. Nothing else changes. */
  lemma FlagExact(env: Env, core: Core, lists: Lists, add: bool, c: char)
    requires env.kind != Unregistered && Bare(c)
    ensures var w := Command(env, core, lists, [Text(add, c)]);
            && w.core == core.(modes := w.core.modes) && w.lists == lists
            && if MayFlag(env, core, add, c) then Changed(core.modes, w.core.modes, add, c)
               else w.core.modes == core.modes
  {
    FlagDone(env, core, lists, add, c);
    SetModeChanged(core.modes, add, c);
  }

  // ------------------------------------------------------------- members

  lemma MayTier(env: Env, core: Core, lists: Lists, add: bool, d: char)
    requires env.kind != Unregistered && MemberMode(d)
    ensures var r := Note(env, Start(core, lists, add)).rights;
            Free(env) || HadTier(core, env.who, d) <==> MayGive(env, r, d) && Half(env, r)
  {
    Noted(env, core, lists, add);
  }

  lemma GiveStep(env: Env, w: Walk, d: char, nick: string)
    ensures var s := GiveMember(env, w, d, nick, []); var m := FindClient(env.ids, nick);
            && (s.Go? ==> s.queue == []) && s.w.lists == w.lists
            && s.w.core == if m >= 0 && m in w.core.members then SetMember(w.core, w.add, d, m) else w.core
  {
    var m := FindClient(env.ids, nick);
    if m >= 0 && m in w.core.members {
      var had := w.core.members[m];
      if !w.add && d !in had { WithoutAbsent(had, d); }
      assert w.core.members[m := had] == w.core.members;
    }
  }

  lemma MemberStep(env: Env, w: Walk, d: char, nick: string)
    ensures var s := DoMember(env, w, d, [nick]); var m := FindClient(env.ids, nick);
            && (s.Go? ==> s.queue == []) && s.w.lists == w.lists
            && s.w.core ==
               if MayGive(env, w.rights, d) && Half(env, w.rights) && m >= 0 && m in w.core.members
               then SetMember(w.core, w.add, d, m) else w.core
  {
    assert [nick][1..] == [];
    GiveStep(env, w, d, nick);
  }

  lemma MemberDone(env: Env, core: Core, lists: Lists, add: bool, d: char, nick: string)
    requires env.kind != Unregistered && MemberMode(d)
    ensures var w := Command(env, core, lists, [Text(add, d), nick]); var m := FindClient(env.ids, nick);
            && w.lists == lists
            && w.core == if (Free(env) || HadTier(core, env.who, d)) && m >= 0 && m in core.members
                         then SetMember(core, add, d, m) else core
  {
    var start := Start(core, lists, add);
    MemberStep(env, Note(env, start), d, nick);
    OneLetter(env, core, lists, add, d, [nick], ModeChar(env, d, [nick], start));
    assert [Text(add, d)] + [nick] == [Text(add, d), nick];
    MayTier(env, core, lists, add, d);
  }

  /** A member mode changes exactly if the sender held its tier: q for q; q or a
      for a; q, a or o for o and h; and h as well for v. Only the member named is
      touched, and only in that letter. */
  lemma MemberExact(env: Env, core: Core, lists: Lists, add: bool, d: char, nick: string)
    requires env.kind != Unregistered && d in "qaohv"
    ensures var w := Command(env, core, lists, [Text(add, d), nick]); var m := FindClient(env.ids, nick);
            && w.core == core.(members := w.core.members) && w.lists == lists
            && w.core.members.Keys == core.members.Keys
            && (forall n :: n in core.members && n != m ==> w.core.members[n] == core.members[n])
            && (m >= 0 && m in core.members ==>
                  if Free(env) || HadTier(core, env.who, d)
                  then Changed(core.members[m], w.core.members[m], add, d)
                  else w.core.members[m] == core.members[m])
  {
    assert MemberMode(d);
    MemberDone(env, core, lists, add, d, nick);
    var m := FindClient(env.ids, nick);
    if m >= 0 && m in core.members { SetModeChanged(core.members[m], add, d); }
  }

  // ------------------------------------------------------- key and limit

  /** Taking a letter off and putting it on again. */
  lemma RenewedHas(s: string, c: char)
    requires |s| <= 20
    ensures c in Renewed(s, c) <==> c in s || |s| < 20
    ensures forall d :: d != c ==> (d in Renewed(s, c) <==> d in s)
  {
    WithoutCount(s, c);
    var t := WithoutMode(s, c);
    assert |t| == |multiset(t)| && |s| == |multiset(s)|;
    if c in s { assert |multiset(s) - multiset{c}| == |s| - 1; }
    forall d | d != c ensures d in Renewed(s, c) <==> d in s { RenewedOther(s, c, d); }
  }

  /** Nothing changes for a sender without privileges, whatever else is sent. */
  lemma Refused(env: Env, core: Core, lists: Lists, params: seq<string>)
    requires env.kind != Unregistered && params != [] && !MayArgue(env, core)
    ensures var w := Command(env, core, lists, params); w.core == core && w.lists == lists
  {
    var p := params[0];
    var cur := if p != [] && IsSign(p[0]) then p[1..] else p;
    InterpretBounded(env, core, lists, cur, params[1..], Start(core, lists, p == [] || p[0] != '-'), 0, 'v');
  }

  /** The step at the first letter, on the privileges of the sender. */
  lemma ArgueStep(env: Env, core: Core, lists: Lists, add: bool, queue: seq<string>)
    requires env.kind != Unregistered
    ensures var n := Counted(Note(env, Start(core, lists, add)));
            && ModeChar(env, 'k', queue, Start(core, lists, add)) == (if add then AddKey(env, n, queue) else DelKey(env, n, queue))
            && ModeChar(env, 'l', queue, Start(core, lists, add)) == (if add then AddLimit(env, n, queue) else DelLimit(env, n, queue))
            && n.core == core && n.lists == lists && n.add == add
            && (Half(env, n.rights) <==> MayArgue(env, core))
  {
    Noted(env, core, lists, add);
  }

  lemma KeyDone(env: Env, core: Core, lists: Lists, key: string)
    requires env.kind != Unregistered
    ensures var w := Command(env, core, lists, ["+k", key]);
            && w.lists == lists
            && w.core == if MayArgue(env, core) && key != [] && ' ' !in key then SetKey(core, key) else core
  {
    ArgueStep(env, core, lists, true, [key]);
    assert [key][1..] == [];
    OneLetter(env, core, lists, true, 'k', [key], ModeChar(env, 'k', [key], Start(core, lists, true)));
    assert [Text(true, 'k')] + [key] == ["+k", key];
  }

  /** A key is stored, cut to 64 bytes, exactly if it is one word and the sender
      holds q, a, o or h. */
  lemma KeyExact(env: Env, core: Core, lists: Lists, key: string)
    requires env.kind != Unregistered && |core.modes| <= 20
    ensures var w := Command(env, core, lists, ["+k", key]);
            && w.core == core.(key := w.core.key, modes := w.core.modes) && w.lists == lists
            && if MayArgue(env, core) && key != [] && ' ' !in key then
                 && w.core.key == (if |key| > 64 then key[..64] else key)
                 && ('k' in w.core.modes <==> 'k' in core.modes || |core.modes| < 20)
                 && (forall d :: d != 'k' ==> (d in w.core.modes <==> d in core.modes))
               else w.core == core
  {
    KeyDone(env, core, lists, key);
    RenewedHas(core.modes, 'k');
  }

  lemma KeyOffDone(env: Env, core: Core, lists: Lists, args: seq<string>)
    requires env.kind != Unregistered && |args| <= 1 && MayArgue(env, core)
    ensures var w := Command(env, core, lists, ["-k"] + args);
            w.core == SetFlag(core, false, 'k') && w.lists == lists
  {
    ArgueStep(env, core, lists, false, args);
    if 'k' !in core.modes { WithoutAbsent(core.modes, 'k'); }
    OneLetter(env, core, lists, false, 'k', args, ModeChar(env, 'k', args, Start(core, lists, false)));
    assert Text(false, 'k') == "-k";
  }

  /** The key letter goes exactly for such a sender, with or without an argument. */
  lemma KeyOffExact(env: Env, core: Core, lists: Lists, args: seq<string>)
    requires env.kind != Unregistered && |args| <= 1
    ensures var w := Command(env, core, lists, ["-k"] + args);
            && w.core == core.(modes := w.core.modes) && w.lists == lists
            && if MayArgue(env, core) then Changed(core.modes, w.core.modes, false, 'k') else w.core == core
  {
    if MayArgue(env, core) {
      KeyOffDone(env, core, lists, args);
      SetModeChanged(core.modes, false, 'k');
    } else {
      Refused(env, core, lists, ["-k"] + args);
    }
  }

  lemma LimitDone(env: Env, core: Core, lists: Lists, arg: string)
    requires env.kind != Unregistered
    ensures var w := Command(env, core, lists, ["+l", arg]);
            && w.lists == lists
            && w.core == if MayArgue(env, core) && 1 <= Atol(arg) <= 65534 then SetLimit(core, Atol(arg)) else core
  {
    ArgueStep(env, core, lists, true, [arg]);
    assert [arg][1..] == [];
    OneLetter(env, core, lists, true, 'l', [arg], ModeChar(env, 'l', [arg], Start(core, lists, true)));
    assert [Text(true, 'l')] + [arg] == ["+l", arg];
  }

  /** A limit between 1 and 65534 is stored exactly for such a sender. */
  lemma LimitExact(env: Env, core: Core, lists: Lists, arg: string)
    requires env.kind != Unregistered && |core.modes| <= 20
    ensures var w := Command(env, core, lists, ["+l", arg]);
            && w.core == core.(limit := w.core.limit, modes := w.core.modes) && w.lists == lists
            && if MayArgue(env, core) && 1 <= Atol(arg) <= 65534 then
                 && w.core.limit == Atol(arg)
                 && ('l' in w.core.modes <==> 'l' in core.modes || |core.modes| < 20)
                 && (forall d :: d != 'l' ==> (d in w.core.modes <==> d in core.modes))
               else w.core == core
  {
    LimitDone(env, core, lists, arg);
    RenewedHas(core.modes, 'l');
  }

  lemma LimitOffDone(env: Env, core: Core, lists: Lists)
    requires env.kind != Unregistered
    ensures var w := Command(env, core, lists, ["-l"]);
            w.core == (if MayArgue(env, core) then SetFlag(core, false, 'l') else core) && w.lists == lists
  {
    ArgueStep(env, core, lists, false, []);
    FlagSet(Counted(Note(env, Start(core, lists, false))), 'l');
    OneLetter(env, core, lists, false, 'l', [], ModeChar(env, 'l', [], Start(core, lists, false)));
    assert [Text(false, 'l')] + [] == ["-l"];
  }

  lemma LimitOffExact(env: Env, core: Core, lists: Lists)
    requires env.kind != Unregistered
    ensures var w := Command(env, core, lists, ["-l"]);
            && w.core == core.(modes := w.core.modes) && w.lists == lists
            && if MayArgue(env, core) then Changed(core.modes, w.core.modes, false, 'l') else w.core == core
  {
    LimitOffDone(env, core, lists);
    SetModeChanged(core.modes, false, 'l');
  }

  // --------------------------------------------------------------- lists

  /** What one list becomes. Only users are held to 50 entries on all lists. */
  predicate Listing(env: Env, was: Lists, masks: seq<string>, now: seq<string>, add: bool, mask: string) {
    now ==
    if !add then Unlisted(masks, mask)
    else if Listed(masks, mask) then masks
    else if env.kind == User && |was.bans| + |was.excepts| + |was.invites| >= 50 then masks
    else [mask] + masks
  }

  lemma {:induction false} UnlistedAbsent(l: seq<string>, mask: string)
    requires !Listed(l, mask)
    ensures Unlisted(l, mask) == l
  {
    if l != [] {
      assert !SameNoCase(l[0], mask);
      forall i | 0 <= i < |l[1..]| ensures !SameNoCase(l[1..][i], mask) { assert l[1..][i] == l[i + 1]; }
      UnlistedAbsent(l[1..], mask);
    }
  }

  lemma EditStep(env: Env, w: Walk, c: char, mask: string)
    requires ListMode(c)
    ensures var s := EditList(env, w, c, mask, []); var now := GetList(s.w.lists, c);
            && (s.Go? ==> s.queue == []) && s.w.core == w.core
            && Listing(env, w.lists, GetList(w.lists, c), now, w.add, mask)
            && s.w.lists == PutList(w.lists, c, now)
  {
    var masks := GetList(w.lists, c);
    if !w.add && !Listed(masks, mask) { UnlistedAbsent(masks, mask); }
  }

  lemma ListDone(env: Env, core: Core, lists: Lists, add: bool, c: char, arg: string)
    requires env.kind != Unregistered && ListMode(c) && MayArgue(env, core)
    ensures var w := Command(env, core, lists, [Text(add, c), arg]); var now := GetList(w.lists, c);
            && w.core == core && w.lists == PutList(lists, c, now)
            && Listing(env, lists, GetList(lists, c), now, add, MakeMask(arg))
  {
    var start := Start(core, lists, add);
    var n := Counted(Note(env, start));
    Noted(env, core, lists, add);
    assert [arg][1..] == [];
    EditStep(env, n, c, MakeMask(arg));
    OneLetter(env, core, lists, add, c, [arg], EditList(env, n, c, MakeMask(arg), []));
    assert [Text(add, c)] + [arg] == [Text(add, c), arg];
  }

  /** The letters b, e and I change the bans, the exceptions and the invites, in
      this order, exactly for a sender who holds q, a, o or h; the other two lists
      and the channel stay. */
  lemma ListExact(env: Env, core: Core, lists: Lists, add: bool, c: char, arg: string)
    requires env.kind != Unregistered && c in "bIe"
    ensures var w := Command(env, core, lists, [Text(add, c), arg]);
            && w.core == core
            && if !MayArgue(env, core) then w.lists == lists
               else
                 && (if c == 'b' then Listing(env, lists, lists.bans, w.lists.bans, add, MakeMask(arg))
                     else w.lists.bans == lists.bans)
                 && (if c == 'e' then Listing(env, lists, lists.excepts, w.lists.excepts, add, MakeMask(arg))
                     else w.lists.excepts == lists.excepts)
                 && (if c == 'I' then Listing(env, lists, lists.invites, w.lists.invites, add, MakeMask(arg))
                     else w.lists.invites == lists.invites)
  {
    if MayArgue(env, core) {
      assert ListMode(c);
      ListDone(env, core, lists, add, c, arg);
    } else {
      Refused(env, core, lists, [Text(add, c), arg]);
    }
  }

  // ------------------------------------------------- during one command

  /** The sender gives up its own o, and the walk goes on with the privileges. */
  lemma OwnTaken(env: Env, core: Core, lists: Lists, nick: string)
    requires Ordinary(env) && FindClient(env.ids, nick) == env.who
    requires env.who in core.members && 'o' in core.members[env.who]
    ensures var s := ModeChar(env, 'o', [nick], Start(core, lists, false));
            && s.Go? && s.queue == [] && s.w.rights.op && !s.w.add
            && s.w.core == SetMember(core, false, 'o', env.who) && s.w.lists == lists
  {
    assert [nick][1..] == [];
    Noted(env, core, lists, false);
  }

  lemma KnownFlag(c: char)
    requires c in "RsziVMmnNQt"
    ensures Bare(c) && (OpFlag(c) || HalfFlag(c))
  {}

  lemma FlagLater(env: Env, w: Walk, c: char)
    requires Ordinary(env) && w.rights.op && w.add && Bare(c) && (OpFlag(c) || HalfFlag(c))
    ensures var s := ModeChar(env, c, [], w);
            s == DoFlag(Note(env, w), c, []) && s.Go? && s.queue == []
            && s.w.core == SetFlag(w.core, true, c) && s.w.lists == w.lists
  {
    BareLetter(c);
    var n := Note(env, w);
    assert n.rights.op && n.core == w.core && n.add && n.lists == w.lists;
    FlagSet(n, c);
    assert GuardedFlag(env, n, c, []) == DoFlag(n, c, []);
  }

  /** Two letters with another sign between them, and one argument. */
  lemma TwoLetters(env: Env, core: Core, lists: Lists, c: char, d: char, arg: string, w1: Walk, w2: Walk)
    requires !IsSign(c) && !IsSign(d)
    requires ModeChar(env, c, [arg], Start(core, lists, false)) == Go(w1, [])
    requires ModeChar(env, d, [], Sign(w1, '+')) == Go(w2, [])
    ensures Command(env, core, lists, [['-', c, '+', d], arg]) == w2
  {
    var m := ['-', c, '+', d];
    assert m[1..] == [c, '+', d] && [c, '+', d][1..] == ['+', d];
    assert ['+', d][1..] == [d] && [d][1..] == [] && [m, arg][1..] == [arg];
    assert Interpret(env, [], [], w2) == w2;
    assert Interpret(env, [d], [], Sign(w1, '+')) == w2;
    assert Interpret(env, ['+', d], [], w1) == w2;
  }

  /** Privileges last for the command: an operator who takes off its own o can
      set a flag behind it. */
  lemma PrivilegeLasts(env: Env, core: Core, lists: Lists, nick: string, c: char)
    requires Ordinary(env) && FindClient(env.ids, nick) == env.who
    requires env.who in core.members && 'o' in core.members[env.who] && c in "RsziVMmnNQt"
    ensures var w := Command(env, core, lists, [['-', 'o', '+', c], nick]);
            && Changed(core.modes, w.core.modes, true, c)
            && Changed(core.members[env.who], ModesOf(w.core, env.who), false, 'o')
  {
    OwnTaken(env, core, lists, nick);
    var w1 := ModeChar(env, 'o', [nick], Start(core, lists, false)).w;
    KnownFlag(c);
    FlagLater(env, Sign(w1, '+'), c);
    BareLetter(c);
    TwoLetters(env, core, lists, 'o', c, nick, w1, ModeChar(env, c, [], Sign(w1, '+')).w);
    SetModeChanged(core.modes, true, c);
    SetModeChanged(core.members[env.who], false, 'o');
  }

  /** Many keys in one command: the letter k as often as there are keys. */
  function Letters(n: nat): string {
    if n == 0 then [] else "k" + Letters(n - 1)
  }

  /** The key that is left when `used` modes with an argument came before. */
  function LastKey(env: Env, key: string, keys: seq<string>, used: nat): string
    decreases |keys|
  {
    if keys == [] || (env.kind == User && used >= 5) then key else LastKey(env, keys[0], keys[1..], used + 1)
  }

  predicate Keys(keys: seq<string>) {
    forall i :: 0 <= i < |keys| ==> 1 <= |keys[i]| <= 64 && ' ' !in keys[i]
  }

  lemma KeyStep(env: Env, w: Walk, keys: seq<string>)
    requires env.kind != Unregistered && Half(env, Note(env, w).rights) && w.add && keys != [] && Keys(keys)
    ensures var s := ModeChar(env, 'k', keys, w);
            if env.kind == User && w.count >= 5 then s.Exit? && s.w.core == w.core
            else
              && s.Go? && s.queue == keys[1..] && s.w.core.key == keys[0] && s.w.add && s.w.count == w.count + 1
              && Half(env, Note(env, s.w).rights)
  {
    KeyTaken(env, Note(env, w), keys);
  }

  lemma KeyTaken(env: Env, n: Walk, keys: seq<string>)
    requires env.kind != Unregistered && Half(env, n.rights) && n.add && keys != [] && Keys(keys)
    ensures var s := DoKey(env, n, keys);
            if env.kind == User && n.count >= 5 then s.Exit? && s.w.core == n.core
            else
              && s.Go? && s.queue == keys[1..] && s.w.core.key == keys[0] && s.w.add
              && s.w.count == n.count + 1 && s.w.rights == n.rights
  {}

  lemma {:induction false} KeysRun(env: Env, keys: seq<string>, w: Walk)
    requires env.kind != Unregistered && Half(env, Note(env, w).rights) && w.add && Keys(keys)
    ensures Interpret(env, Letters(|keys|), keys, w).core.key == LastKey(env, w.core.key, keys, w.count)
    decreases |keys|
  {
    if keys != [] {
      KeyStep(env, w, keys);
      var s := ModeChar(env, 'k', keys, w);
      assert Letters(|keys|)[1..] == Letters(|keys| - 1);
      if s.Go? { KeysRun(env, keys[1..], s.w); }
    }
  }

  lemma {:induction false} FifthKey(env: Env, key: string, keys: seq<string>, used: nat)
    requires used <= 5
    ensures LastKey(env, key, keys, used) ==
            var n := if env.kind == User && |keys| > 5 - used then 5 - used else |keys|;
            if n == 0 then key else keys[n - 1]
    decreases |keys|
  {
    if keys != [] && !(env.kind == User && used >= 5) {
      if used < 5 { FifthKey(env, keys[0], keys[1..], used + 1); } else { LastOfAll(env, keys[0], keys[1..], used + 1); }
    }
  }

  lemma {:induction false} LastOfAll(env: Env, key: string, keys: seq<string>, used: nat)
    requires env.kind != User
    ensures LastKey(env, key, keys, used) == if keys == [] then key else keys[|keys| - 1]
    decreases |keys|
  {
    if keys != [] { LastOfAll(env, keys[0], keys[1..], used + 1); }
  }

  /** A user gets no more than five modes with an argument into one command; servers
      and services are not limited. */
  lemma FivePerCommand(env: Env, core: Core, lists: Lists, keys: seq<string>)
    requires env.kind != Unregistered && MayArgue(env, core) && keys != [] && Keys(keys)
    ensures Command(env, core, lists, ["+" + Letters(|keys|)] + keys).core.key
            == keys[(if env.kind == User && |keys| > 5 then 5 else |keys|) - 1]
  {
    Opened(env, core, lists, Letters(|keys|), keys);
    Noted(env, core, lists, true);
    KeysRun(env, keys, Start(core, lists, true));
    FifthKey(env, core.key, keys, 0);
  }

  lemma Opened(env: Env, core: Core, lists: Lists, m: string, queue: seq<string>)
    ensures Command(env, core, lists, ["+" + m] + queue) == Interpret(env, m, queue, Start(core, lists, true))
  {
    var params := ["+" + m] + queue;
    assert params[0] == "+" + m && params[1..] == queue && ("+" + m)[1..] == m;
  }

  // ------------------------------------------------------- many letters

  /** Whether a letter is set after a text of signs and letters: the sign in force
      at its last occurrence decides, and without one nothing changes. */
  function Says(text: string, add: bool, c: char, had: bool): bool
    decreases text
  {
    if text == [] then had
    else if IsSign(text[0]) then Says(text[1..], text[0] == '+', c, had)
    else Says(text[1..], add, c, if text[0] == c then add else had)
  }

  function Concat(params: seq<string>): string {
    if params == [] then [] else params[0] + Concat(params[1..])
  }

  /** Signs and flags that a channel operator may change. */
  predicate Flags(text: string) {
    forall i :: 0 <= i < |text| ==> IsSign(text[i]) || (Bare(text[i]) && (OpFlag(text[i]) || HalfFlag(text[i])))
  }

  predicate AllFlags(params: seq<string>) {
    forall i :: 0 <= i < |params| ==> params[i] != [] && Flags(params[i])
  }

  lemma FlagApplied(env: Env, w: Walk, d: char, queue: seq<string>)
    requires Op(env, Note(env, w).rights) && Bare(d) && (OpFlag(d) || HalfFlag(d))
    ensures var s := ModeChar(env, d, queue, w);
            && s.Go? && s.queue == queue && s.w.add == w.add && s.w.lists == w.lists
            && s.w.core == SetFlag(w.core, w.add, d) && Op(env, Note(env, s.w).rights)
  {
    BareLetter(d);
    var n := Note(env, w);
    assert GuardedFlag(env, n, d, queue) == DoFlag(n, d, queue);
    if !n.add && d !in n.core.modes { WithoutAbsent(n.core.modes, d); }
  }

  lemma SetSingle(modes: string, add: bool, d: char, c: char)
    requires Replay.Single(modes, c) && |modes| < 20
    ensures var r := SetMode(modes, add, d);
            && Replay.Single(r, c) && |r| <= |modes| + 1
            && (c in r <==> if d == c then add else c in modes)
  {
    Replay.SetModeSingle(modes, add, d, c);
    WithoutMembers(modes, d, c);
    WithoutCount(modes, d);
    assert |WithoutMode(modes, d)| == |multiset(WithoutMode(modes, d))| && |modes| == |multiset(modes)|;
  }

  /** The walk has this letter set at its end exactly if the text says so, and it
      changes nothing but flags. */
  predicate Said(w: Walk, r: Walk, text: string, c: char) {
    && r.lists == w.lists && r.core == w.core.(modes := r.core.modes)
    && (c in r.core.modes <==> Says(text, w.add, c, c in w.core.modes))
  }

  lemma {:induction false} FlagsRun(env: Env, cur: string, queue: seq<string>, w: Walk, c: char)
    requires Op(env, Note(env, w).rights) && Flags(cur) && AllFlags(queue) && !IsSign(c)
    requires Replay.Single(w.core.modes, c) && |w.core.modes| + |cur + Concat(queue)| <= 20
    ensures Said(w, Interpret(env, cur, queue, w), cur + Concat(queue), c)
    decreases |queue|, |cur|
  {
    var text := cur + Concat(queue);
    if cur == [] {
      if queue != [] {
        assert text == queue[0] + Concat(queue[1..]);
        FlagsRun(env, queue[0], queue[1..], w, c);
      }
    } else {
      assert text[0] == cur[0] && text[1..] == cur[1..] + Concat(queue);
      if IsSign(cur[0]) {
        FlagsRun(env, cur[1..], queue, Sign(w, cur[0]), c);
      } else {
        FlagApplied(env, w, cur[0], queue);
        SetSingle(w.core.modes, w.add, cur[0], c);
        FlagsRun(env, cur[1..], queue, ModeChar(env, cur[0], queue, w).w, c);
      }
    }
  }

  /** Flags of a sender who holds q, a or o, in any order, with any signs, spread
      over any number of parameters, the first sign being plus if none is given:
      each ends as its last occurrence says. */
  lemma FlagsExact(env: Env, core: Core, lists: Lists, params: seq<string>, c: char)
    requires env.kind != Unregistered && (Free(env) || HadOp(core, env.who))
    requires params != [] && AllFlags(params) && !IsSign(c)
    requires Replay.Single(core.modes, c) && |core.modes| + |Concat(params)| <= 20
    ensures var w := Command(env, core, lists, params);
            && w.lists == lists && w.core == core.(modes := w.core.modes)
            && (c in w.core.modes <==> Says(Concat(params), true, c, c in core.modes))
  {
    var m := params[0];
    var add := m[0] != '-';
    var cur := if IsSign(m[0]) then m[1..] else m;
    Noted(env, core, lists, add);
    SignFirst(params, c, c in core.modes);
    FlagsRun(env, cur, params[1..], Start(core, lists, add), c);
  }

  /** A sign at the start of the parameters is the sign in force behind it. */
  lemma SignFirst(params: seq<string>, c: char, had: bool)
    requires params != [] && params[0] != []
    ensures var m := params[0]; var text := (if IsSign(m[0]) then m[1..] else m) + Concat(params[1..]);
            |text| <= |Concat(params)| && Says(Concat(params), true, c, had) == Says(text, m[0] != '-', c, had)
  {
    var m := params[0];
    if IsSign(m[0]) {
      var t := m[1..] + Concat(params[1..]);
      assert Concat(params)[0] == m[0] && Concat(params)[1..] == t;
    }
  }

  /** A refused R, s or z ends the command, whatever stands behind it. */
  lemma RefusedEnds(env: Env, core: Core, lists: Lists, add: bool, c: char, rest: string, queue: seq<string>)
    requires env.kind != Unregistered && c in "Rsz" && !Free(env) && !HadOp(core, env.who)
    ensures var w := Command(env, core, lists, [Text(add, c) + rest] + queue); w.core == core && w.lists == lists
  {
    var m := Text(add, c) + rest;
    var params := [m] + queue;
    assert params[0] == m && params[1..] == queue && m[1..] == [c] + rest && ([c] + rest)[0] == c;
    Noted(env, core, lists, add);
    assert ModeChar(env, c, queue, Start(core, lists, add)).Exit?;
  }

  /** Without an argument a list is shown and a member mode does nothing. */
  lemma NoArgument(env: Env, core: Core, lists: Lists, add: bool, c: char)
    requires c in "bIeqaohv"
    ensures var w := Command(env, core, lists, [Text(add, c)]); w.core == core && w.lists == lists
  {
    var s := ModeChar(env, c, [], Start(core, lists, add));
    AloneStep(env, Start(core, lists, add), c);
    OneLetter(env, core, lists, add, c, [], s);
    assert [Text(add, c)] + [] == [Text(add, c)];
  }

  lemma AloneStep(env: Env, w: Walk, c: char)
    requires c in "bIeqaohv"
    ensures var s := ModeChar(env, c, [], w); s.w.core == w.core && s.w.lists == w.lists && (s.Go? ==> s.queue == [])
  {
    assert MemberMode(c) || ListMode(c);
  }
}
