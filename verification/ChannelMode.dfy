/** The MODE interpreter for channels: the command as a walk over mode
    characters and a queue of arguments, the state it changes, and the diff
    it broadcasts. */
module ChannelMode {
  import opened Defines
  import opened CStrings
  import opened Directory
  import opened Masks

  const MAX_HNDL_MODES_ARG := 5
  const MAX_HNDL_CHANNEL_LISTS := 50

  /** Flags, key, member limit and the modes of each member; a member is named
      by its position in the client list. */
  datatype Core = Core(modes: string, key: string, limit: nat, members: map<nat, string>)

  /** Masks of the ban, exception and invite lists, newest first. */
  datatype Lists = Lists(bans: seq<string>, excepts: seq<string>, invites: seq<string>)

  /** The reply being built: a mode string and its arguments. */
  datatype Diff = Diff(modes: string, args: seq<string>)

  /** Privileges of the sender seen so far. */
  datatype Rights = Rights(owner: bool, admin: bool, op: bool, half: bool)

  /** Who sends the command. `oper` says that the sender is an IRC operator and
      OperCanMode is configured; `write` answers the n-th reply that is written
      (false: the sender got disconnected). */
  datatype Env = Env(ids: seq<string>, who: nat, kind: Kind, oper: bool, write: nat -> bool) {
    predicate Machine() { kind == Server || kind == Service }
  }

  /** State of the interpreter; `add` is the sign in force, `count` the number
      of modes with an argument, `replies` the number of replies written. */
  datatype Walk = Walk(
    core: Core, lists: Lists, add: bool, rights: Rights, count: nat, diff: Diff, replies: nat)

  /** One mode character: carry on with the remaining arguments, or leave. */
  datatype Step = Go(w: Walk, queue: seq<string>) | Exit(w: Walk) {
    /** At most the first argument was used up. */
    predicate Takes(q: seq<string>) {
      Go? ==> queue == q || (q != [] && queue == q[1..])
    }
  }

  predicate IsSign(c: char) { c == '+' || c == '-' }

  /** Flags for channel operators only. */
  predicate OpFlag(c: char) { c == 'R' || c == 's' || c == 'z' }

  /** Flags half-operators may change as well. */
  predicate HalfFlag(c: char) {
    c == 'i' || c == 'V' || c == 'M' || c == 'm' || c == 'n' || c == 'N' || c == 'Q' || c == 't'
  }

  /** Flags only IRC operators may set. */
  predicate OperFlag(c: char) { c == 'O' || c == 'P' }

  /** Modes of a member: owner, admin, operator, half-operator, voice. */
  predicate MemberMode(c: char) { c == 'q' || c == 'a' || c == 'o' || c == 'h' || c == 'v' }

  predicate ListMode(c: char) { c == 'I' || c == 'b' || c == 'e' }

  // ------------------------------------------------- primitives, channel.c

  /** Appending one mode to a mode buffer; it is lost when the buffer is full. */
  function WithMode(modes: string, c: char): string {
    if c in modes then modes
    else if |modes| < CHANNEL_MODE_LEN - 1 then modes + [c] else modes
  }

  /** Removing the first occurrence of a mode. */
  function WithoutMode(modes: string, c: char): string {
    if modes == [] then []
    else if modes[0] == c then modes[1..]
    else [modes[0]] + WithoutMode(modes[1..], c)
  }

  lemma {:induction false} WithoutAbsent(s: string, c: char)
    requires c !in s
    ensures WithoutMode(s, c) == s
  {
    if s != [] {
      assert s[0] in s;
      WithoutAbsent(s[1..], c);
      assert s == [s[0]] + s[1..];
    }
  }

  lemma {:induction false} WithoutMembers(s: string, c: char, d: char)
    ensures d in WithoutMode(s, c) ==> d in s
    ensures d != c && d in s ==> d in WithoutMode(s, c)
  {
    if s != [] {
      WithoutMembers(s[1..], c, d);
      assert s == [s[0]] + s[1..];
    }
  }

  function SetMode(modes: string, add: bool, c: char): string {
    if add then WithMode(modes, c) else WithoutMode(modes, c)
  }

  function SetFlag(core: Core, add: bool, c: char): Core {
    core.(modes := SetMode(core.modes, add, c))
  }

  /** Taking a mode off and putting it on again. */
  function Renewed(modes: string, c: char): string {
    WithMode(WithoutMode(modes, c), c)
  }

  function SetKey(core: Core, key: string): Core {
    core.(modes := Renewed(core.modes, 'k'), key := Cut(key, CLIENT_PASS_LEN))
  }

  function SetLimit(core: Core, l: nat): Core {
    core.(modes := Renewed(core.modes, 'l'), limit := l)
  }

  function SetMember(core: Core, add: bool, c: char, client: nat): Core
    requires client in core.members
  {
    core.(members := core.members[client := SetMode(core.members[client], add, c)])
  }

  // ------------------------------------------------- numbers, atol and %ld

  predicate Space(c: char) { c == ' ' || '\t' <= c <= '\r' }
  predicate Digit(c: char) { '0' <= c <= '9' }

  function Digits(s: string, acc: nat): nat {
    if s != [] && Digit(s[0]) then Digits(s[1..], acc * 10 + (s[0] as int - '0' as int)) else acc
  }

  function Atol(s: string): int {
    if s == [] then 0
    else if Space(s[0]) then Atol(s[1..])
    else if s[0] == '-' then 0 - Digits(s[1..], 0)
    else if s[0] == '+' then Digits(s[1..], 0)
    else Digits(s, 0)
  }

  function Decimal(n: nat): (s: string)
    ensures s != [] && Digit(s[0])
    ensures forall i :: 0 <= i < |s| ==> Digit(s[i])
  {
    var d := ('0' as int + n % 10) as char;
    if n < 10 then [d] else Decimal(n / 10) + [d]
  }

  // ---------------------------------------------------------- one character

  predicate Owner(env: Env, r: Rights) { env.oper || env.Machine() || r.owner }
  predicate Admin(env: Env, r: Rights) { Owner(env, r) || r.admin }
  predicate Op(env: Env, r: Rights) { Admin(env, r) || r.op }
  predicate Half(env: Env, r: Rights) { Op(env, r) || r.half }

  /** Some reply is written; the loop goes on unless the sender is gone. */
  function Reply(env: Env, w: Walk, queue: seq<string>): Step {
    var w1 := w.(replies := w.replies + 1);
    if env.write(w.replies) then Go(w1, queue) else Exit(w1)
  }

  /** An error reply that ends the command; machines are not answered. */
  function ReplyExit(env: Env, w: Walk): Step {
    Exit(if env.Machine() then w else w.(replies := w.replies + 1))
  }

  function Report(w: Walk, core: Core, letters: string, args: seq<string>): Walk {
    w.(core := core, diff := Diff(w.diff.modes + letters, w.diff.args + args))
  }

  /** A flag without argument: reported if the channel changed. */
  function DoFlag(w: Walk, c: char, queue: seq<string>): Step {
    if w.add != (c in w.core.modes) then Go(Report(w, SetFlag(w.core, w.add, c), [c], []), queue)
    else Go(w, queue)
  }

  predicate LimitReached(env: Env, w: Walk) {
    !env.Machine() && w.count >= MAX_HNDL_MODES_ARG
  }

  function Counted(w: Walk): Walk { w.(count := w.count + 1) }

  /** Letter reported for a mode that was taken off and put on again. */
  function Fresh(core: Core, c: char): string {
    if c in WithoutMode(core.modes, c) then [] else [c]
  }

  function AddKey(env: Env, w: Walk, queue: seq<string>): Step {
    if queue == [] || queue[0] == [] || ' ' in queue[0] then ReplyExit(env, w)
    else if !Half(env, w.rights) then Reply(env, w, queue[1..])
    else
      var core := SetKey(w.core, queue[0]);
      Go(Report(w, core, Fresh(w.core, 'k'), [core.key]), queue[1..])
  }

  /** Removing the key skips an argument if there is one. */
  function DelKey(env: Env, w: Walk, queue: seq<string>): Step {
    if !Half(env, w.rights) then Reply(env, w, queue)
    else
      var rest := if queue == [] then queue else queue[1..];
      if 'k' !in w.core.modes then Go(w, rest)
      else Go(Report(w, SetFlag(w.core, false, 'k'), ['k'], ["*"]), rest)
  }

  function AddLimit(env: Env, w: Walk, queue: seq<string>): Step {
    if queue == [] then ReplyExit(env, w)
    else
      var l := Atol(queue[0]);
      if l <= 0 || l >= 0xFFFF then ReplyExit(env, w)
      else if !Half(env, w.rights) then Reply(env, w, queue[1..])
      else Go(Report(w, SetLimit(w.core, l), Fresh(w.core, 'l'), [Decimal(l)]), queue[1..])
  }

  function DelLimit(env: Env, w: Walk, queue: seq<string>): Step {
    if Half(env, w.rights) then DoFlag(w, 'l', queue) else Reply(env, w, queue)
  }

  function DoKey(env: Env, w: Walk, queue: seq<string>): Step {
    if LimitReached(env, w) then Exit(Counted(w))
    else if w.add then AddKey(env, Counted(w), queue)
    else DelKey(env, Counted(w), queue)
  }

  function DoLimit(env: Env, w: Walk, queue: seq<string>): Step {
    if LimitReached(env, w) then Exit(Counted(w))
    else if w.add then AddLimit(env, Counted(w), queue)
    else DelLimit(env, Counted(w), queue)
  }

  /** May the sender touch this member mode at all? */
  predicate MayGive(env: Env, r: Rights, c: char) {
    if c == 'q' then Owner(env, r)
    else if c == 'a' then Admin(env, r)
    else if c == 'v' then true
    else Op(env, r)
  }

  function GiveMember(env: Env, w: Walk, c: char, arg: string, rest: seq<string>): Step {
    var client := FindClient(env.ids, arg);
    if client < 0 || client !in w.core.members then Reply(env, w, rest)
    else if w.add == (c in w.core.members[client]) then Go(w, rest)
    else Go(Report(w, SetMember(w.core, w.add, c, client), [c], [env.ids[client]]), rest)
  }

  function DoMember(env: Env, w: Walk, c: char, queue: seq<string>): Step {
    if !MayGive(env, w.rights, c) then ReplyExit(env, w)
    else if queue == [] then Exit(w)
    else if !Half(env, w.rights) then Reply(env, w, queue[1..])
    else GiveMember(env, w, c, queue[0], queue[1..])
  }

  function GetList(l: Lists, c: char): seq<string> {
    if c == 'b' then l.bans else if c == 'e' then l.excepts else l.invites
  }

  function PutList(l: Lists, c: char, masks: seq<string>): Lists {
    if c == 'b' then l.(bans := masks)
    else if c == 'e' then l.(excepts := masks)
    else l.(invites := masks)
  }

  function ListSize(l: Lists): nat { |l.bans| + |l.excepts| + |l.invites| }

  /** The confirmation of a list change goes to users only. */
  function Confirm(env: Env, w: Walk, rest: seq<string>): Step {
    if env.kind == User then Reply(env, w, rest) else Go(w, rest)
  }

  function EditList(env: Env, w: Walk, c: char, mask: string, rest: seq<string>): Step {
    var masks := GetList(w.lists, c);
    if w.add == Listed(masks, mask) then Go(w, rest)
    else if !w.add then Confirm(env, w.(lists := PutList(w.lists, c, Unlisted(masks, mask))), rest)
    else if env.kind == User && ListSize(w.lists) >= MAX_HNDL_CHANNEL_LISTS then Reply(env, w, rest)
    else Confirm(env, w.(lists := PutList(w.lists, c, [mask] + masks)), rest)
  }

  function DoList(env: Env, w: Walk, c: char, queue: seq<string>): Step {
    if LimitReached(env, w) then Exit(Counted(w))
    else if queue == [] then Go(Counted(w), queue)
    else if !Half(env, w.rights) then Reply(env, Counted(w), queue[1..])
    else EditList(env, Counted(w), c, MakeMask(queue[0]), queue[1..])
  }

  /** Privileges of an ordinary sender are looked up before every mode and
      stay for the rest of the command. */
  function Note(env: Env, w: Walk): Walk {
    if env.Machine() || env.oper || env.who !in w.core.members then w
    else
      var m, r := w.core.members[env.who], w.rights;
      w.(rights := Rights(r.owner || 'q' in m, r.admin || 'a' in m, r.op || 'o' in m, r.half || 'h' in m))
  }

  /** A flag of the channel, guarded by its tier. */
  function GuardedFlag(env: Env, w: Walk, c: char, queue: seq<string>): Step {
    if OpFlag(c) then if Op(env, w.rights) then DoFlag(w, c, queue) else ReplyExit(env, w)
    else
      var allowed :=
        if HalfFlag(c) then Half(env, w.rights)
        else if !OperFlag(c) then env.kind == Server
        else if w.add then env.oper || env.Machine()
        else Op(env, w.rights);
      if allowed then DoFlag(w, c, queue) else Reply(env, w, queue)
  }

  function ModeChar(env: Env, c: char, queue: seq<string>, w0: Walk): (s: Step)
    ensures s.Takes(queue)
  {
    var w := Note(env, w0);
    if c == 'k' then DoKey(env, w, queue)
    else if c == 'l' then DoLimit(env, w, queue)
    else if MemberMode(c) then DoMember(env, w, c, queue)
    else if ListMode(c) then DoList(env, w, c, queue)
    else GuardedFlag(env, w, c, queue)
  }

  /** A sign replaces a sign at the end of the reply, else is appended. */
  function Sign(w: Walk, c: char): Walk {
    if w.add == (c == '+') then w
    else
      var m, n := w.diff.modes, |w.diff.modes|;
      var kept := if n > 0 && IsSign(m[n - 1]) then m[..n - 1] else m;
      w.(add := c == '+', diff := w.diff.(modes := kept + [c]))
  }

  /** The whole walk: `cur` is what is left of the mode string being read. */
  function Interpret(env: Env, cur: string, queue: seq<string>, w: Walk): Walk
    decreases |queue|, |cur|
  {
    if cur == [] then
      if queue == [] || queue[0] == [] then w else Interpret(env, queue[0], queue[1..], w)
    else if IsSign(cur[0]) then Interpret(env, cur[1..], queue, Sign(w, cur[0]))
    else
      match ModeChar(env, cur[0], queue, w)
      case Exit(w1) => w1
      case Go(w1, q1) => Interpret(env, cur[1..], q1, w1)
  }

  // ------------------------------------------------------------- a command

  function Start(core: Core, lists: Lists, add: bool): Walk {
    Walk(core, lists, add, Rights(false, false, false, false), 0, Diff(if add then "+" else "-", []), 0)
  }

  /** The walk started for the parameters behind the channel name. */
  function Command(env: Env, core: Core, lists: Lists, params: seq<string>): Walk
    requires params != []
  {
    var m := params[0];
    var add := m == [] || m[0] != '-';
    var cur := if m != [] && IsSign(m[0]) then m[1..] else m;
    Interpret(env, cur, params[1..], Start(core, lists, add))
  }

  /** The sign without any mode behind it is taken off the reply. */
  function Trimmed(m: string): string {
    if m != [] && IsSign(m[|m| - 1]) then m[..|m| - 1] else m
  }

  /** Is there anything to tell to the other servers? */
  predicate Broadcast(w: Walk) { |w.diff.modes| > 1 }

  /** Parameters of the broadcast MODE command. */
  function Message(w: Walk): seq<string> {
    [Trimmed(w.diff.modes)] + w.diff.args
  }
}
