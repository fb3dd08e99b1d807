/** The MODE interpreter for users and its broadcast. */
module UserMode {
  import opened Defines
  import opened ChannelMode
  import Grants = ModeGrants
  import ModeReplay

  /** The sender. A user changes its own modes only, so for a user "restricted"
      and "operator" are read off the modes being changed; for a server or a
      service they are properties of that sender. `cloak` says that a cloaked
      host name for mode x is configured. */
  datatype Sender = Sender(kind: Kind, restricted: bool, oper: bool, cloak: bool, write: nat -> bool)

  datatype State = State(modes: string, add: bool, diff: string, replies: nat)

  predicate Restricted(e: Sender, modes: string) { if e.kind == User then 'r' in modes else e.restricted }

  predicate Oper(e: Sender, modes: string) { if e.kind == User then 'o' in modes else e.oper }

  /** May this letter be changed under the sign in force? */
  predicate Allowed(e: Sender, s: State, c: char) {
    match c
    case 'b' => true
    case 'C' => true
    case 'i' => true
    case 'I' => true
    case 's' => true
    case 'w' => true
    case 'B' => !Restricted(e, s.modes)
    case 'c' => !s.add || e.kind == Server || Oper(e, s.modes)
    case 'q' => !s.add || e.kind == Server || Oper(e, s.modes)
    case 'F' => !s.add || e.kind == Server || Oper(e, s.modes)
    case 'o' => !s.add || e.kind == Server
    case 'r' => s.add || e.kind == Server
    case 'x' => !Restricted(e, s.modes) && (!s.add || e.cloak || e.kind == Server || Oper(e, s.modes))
    case _ => e.kind == Server
  }

  function Change(s: State, c: char): State {
    if s.add == (c in s.modes) then s
    else s.(modes := SetMode(s.modes, s.add, c), diff := s.diff + [c])
  }

  function SetSign(s: State, c: char): State {
    if s.add == (c == '+') then s
    else
      var n := |s.diff|;
      var kept := if n > 0 && IsSign(s.diff[n - 1]) then s.diff[..n - 1] else s.diff;
      s.(add := c == '+', diff := kept + [c])
  }

  /** All mode characters in order; a refused letter is answered and ends the
      command if the sender is gone. */
  function Walk(e: Sender, text: string, s: State): State {
    if text == [] then s
    else if IsSign(text[0]) then Walk(e, text[1..], SetSign(s, text[0]))
    else if Allowed(e, s, text[0]) then Walk(e, text[1..], Change(s, text[0]))
    else
      var s1 := s.(replies := s.replies + 1);
      if e.write(s.replies) then Walk(e, text[1..], s1) else s1
  }

  /** The parameters read as one text, up to an empty one. */
  function Text(params: seq<string>): string {
    if params == [] || params[0] == [] then [] else params[0] + Text(params[1..])
  }

  lemma TextNext(argv: seq<string>, k: nat)
    requires k < |argv| && argv[k] != []
    ensures Text(argv[k..]) == argv[k] + Text(argv[k + 1..])
  {
    assert argv[k..][1..] == argv[k + 1..];
  }

  predicate WellFormed(params: seq<string>) {
    params != [] && params[0] != [] && IsSign(params[0][0])
  }

  function Begin(modes: string, sign: char): State { State(modes, sign == '+', [sign], 0) }

  /** A command for the client's modes; without a sign first it is refused. */
  function Command(e: Sender, modes: string, params: seq<string>): State
    requires WellFormed(params)
  {
    var text := Text(params);
    Walk(e, text[1..], Begin(modes, text[0]))
  }

  predicate Announced(s: State) { |s.diff| > 1 }

  class ClientObject {
    var modes: string

    constructor (modes: string)
      ensures this.modes == modes
    {
      this.modes := modes;
    }
  }

  /** May the command be interpreted? Users change their own modes only. */
  predicate Accepted(e: Sender, own: bool, params: seq<string>) {
    (e.kind == User ==> own) && WellFormed(params)
  }

  /** The text that is left behind position `ptr` of the current parameter. */
  function Rest(argv: seq<string>, modeArg: nat, modeStr: string, ptr: nat): string
    requires modeArg < |argv| && ptr < |modeStr|
  {
    modeStr[ptr + 1..] + Text(argv[modeArg + 1..])
  }

  /** To the next character, in this parameter or the next one. */
  method Advance(argv: seq<string>, modeArg: nat, modeStr: string, ptr: nat)
    returns (more: bool, arg1: nat, str1: string, ptr1: nat, c: char)
    requires modeArg < |argv| && ptr < |modeStr|
    ensures !more ==> Rest(argv, modeArg, modeStr, ptr) == []
    ensures more ==>
              && modeArg <= arg1 < |argv| && ptr1 < |str1|
              && Rest(argv, modeArg, modeStr, ptr) == [c] + Rest(argv, arg1, str1, ptr1)
              && (arg1 == modeArg ==> str1 == modeStr && ptr1 == ptr + 1)
  {
    arg1, str1, ptr1 := modeArg, modeStr, ptr + 1;
    if ptr1 == |str1| {
      arg1 := arg1 + 1;
      if arg1 == |argv| || argv[arg1] == [] {
        return false, modeArg, modeStr, ptr, ' ';
      }
      str1, ptr1 := argv[arg1], 0;
      TextNext(argv, arg1);
    }
    more, c := true, str1[ptr1];
    assert str1[ptr1..] == [c] + str1[ptr1 + 1..];
  }

  /** One character of the mode string. */
  method Letter(target: ClientObject, e: Sender, s: State, c: char, ghost rest: string) returns (s1: State, go: bool)
    requires target.modes == s.modes
    modifies target
    ensures target.modes == s1.modes
    ensures Walk(e, [c] + rest, s) == if go then Walk(e, rest, s1) else s1
  {
    s1, go := s, true;
    assert ([c] + rest)[1..] == rest;
    if IsSign(c) {
      s1 := SetSign(s, c);
    } else if Allowed(e, s, c) {
      s1 := Change(s, c);
      target.modes := s1.modes;
    } else {
      go := e.write(s.replies);
      s1 := s.(replies := s.replies + 1);
    }
  }

  /** `Client_Mode` as it runs, on `argv` with the target name first; `own` says
      that the sender is the target. */
  method ClientMode(target: ClientObject, e: Sender, own: bool, argv: seq<string>)
    returns (announced: bool, diff: string)
    requires |argv| >= 1
    modifies target
    ensures (e.kind == User && !own) || |argv| == 1 || argv[1] == [] || argv[1][0] !in "+-" ==>
              !announced && target.modes == old(target.modes)
    ensures (e.kind == User ==> own) && |argv| > 1 && argv[1] != [] && argv[1][0] in "+-" ==>
              var s := Command(e, old(target.modes), argv[1..]);
              target.modes == s.modes && announced == Announced(s) && (announced ==> diff == Trimmed(s.diff))
  {
    if e.kind == User && !own {
      return false, [];
    }
    if |argv| == 1 || argv[1] == [] || !IsSign(argv[1][0]) {
      return false, [];
    }
    var modeArg: nat, modeStr, ptr: nat := 1, argv[1], 0;
    var s := Begin(target.modes, modeStr[0]);
    ghost var result := Command(e, target.modes, argv[1..]);
    TextNext(argv, 1);
    assert Text(argv[1..])[1..] == Rest(argv, modeArg, modeStr, ptr);
    while true
      invariant 1 <= modeArg < |argv| && ptr < |modeStr|
      invariant Walk(e, Rest(argv, modeArg, modeStr, ptr), s) == result
      invariant target.modes == s.modes
      decreases |argv| - modeArg, |modeStr| - ptr
    {
      var more, c;
      more, modeArg, modeStr, ptr, c := Advance(argv, modeArg, modeStr, ptr);
      if !more {
        break;
      }
      var go;
      s, go := Letter(target, e, s, c, Rest(argv, modeArg, modeStr, ptr));
      if !go {
        break;
      }
    }
    assert s == result;
    announced := Announced(s);
    diff := if announced then Trimmed(s.diff) else [];
  }

  // --------------------------------------------------------------- replay

  /** A diff applied letter by letter. */
  function Apply(modes: string, add: bool, m: string): (string, bool)
    decreases m
  {
    if m == [] then (modes, add)
    else if IsSign(m[0]) then Apply(modes, m[0] == '+', m[1..])
    else Apply(SetMode(modes, add, m[0]), add, m[1..])
  }

  lemma {:induction false} ApplySnoc(modes: string, add: bool, m: string, c: char)
    ensures var (m1, a1) := Apply(modes, add, m);
            Apply(modes, add, m + [c]) == if IsSign(c) then (m1, c == '+') else (SetMode(m1, a1, c), a1)
    decreases m
  {
    if m == [] {
      assert (m + [c])[1..] == [];
    } else {
      assert (m + [c])[1..] == m[1..] + [c];
      if IsSign(m[0]) {
        ApplySnoc(modes, m[0] == '+', m[1..], c);
      } else {
        ApplySnoc(SetMode(modes, add, m[0]), add, m[1..], c);
      }
    }
  }

  /** The diff so far leads from `modes` to the state. */
  predicate Tracks(modes: string, s: State) {
    s.diff != [] && IsSign(s.diff[0]) && Apply(modes, true, s.diff) == (s.modes, s.add)
  }

  lemma SignTracks(modes: string, s: State, c: char)
    requires Tracks(modes, s) && IsSign(c)
    ensures Tracks(modes, SetSign(s, c))
  {
    var n := |s.diff|;
    ApplySnoc(modes, true, s.diff, c);
    ApplySnoc(modes, true, s.diff[..n - 1], s.diff[n - 1]);
    ApplySnoc(modes, true, s.diff[..n - 1], c);
    assert s.diff == s.diff[..n - 1] + [s.diff[n - 1]];
  }

  lemma {:induction false} WalkTracks(e: Sender, modes: string, text: string, s: State)
    requires Tracks(modes, s)
    ensures Tracks(modes, Walk(e, text, s))
    decreases text
  {
    if text != [] {
      var c := text[0];
      if IsSign(c) {
        SignTracks(modes, s, c);
        WalkTracks(e, modes, text[1..], SetSign(s, c));
      } else if Allowed(e, s, c) {
        ApplySnoc(modes, true, s.diff, c);
        WalkTracks(e, modes, text[1..], Change(s, c));
      } else {
        WalkTracks(e, modes, text[1..], s.(replies := s.replies + 1));
      }
    }
  }

  /** A server that is not restricted may change every letter. */
  lemma {:induction false} ServerWalk(e: Sender, text: string, s: State)
    requires e.kind == Server && !e.restricted
    ensures Walk(e, text, s).modes == Apply(s.modes, s.add, text).0
    decreases text
  {
    if text != [] {
      var c := text[0];
      if IsSign(c) {
        ServerWalk(e, text[1..], SetSign(s, c));
      } else {
        if c !in s.modes { WithoutAbsent(s.modes, c); }
        ServerWalk(e, text[1..], Change(s, c));
      }
    }
  }

  /** The announced diff, sent by any unrestricted server, has the effect of
      the command; without an announcement nothing changed. */
  lemma Replay(e: Sender, modes: string, params: seq<string>, peer: Sender)
    requires WellFormed(params) && peer.kind == Server && !peer.restricted
    ensures var s := Command(e, modes, params);
            && (!Announced(s) ==> s.modes == modes)
            && (Announced(s) ==>
                  && WellFormed([Trimmed(s.diff)])
                  && Command(peer, modes, [Trimmed(s.diff)]).modes == s.modes)
  {
    var text := Text(params);
    var s := Command(e, modes, params);
    var b := Begin(modes, text[0]);
    assert b.diff[1..] == [];
    WalkTracks(e, modes, text[1..], b);
    var n := |s.diff| - 1;
    assert s.diff == s.diff[..n] + [s.diff[n]];
    ApplySnoc(modes, true, s.diff[..n], s.diff[n]);
    if Announced(s) {
      var t := Trimmed(s.diff);
      assert Text([t]) == t by { assert t + [] == t; }
      ServerWalk(peer, t[1..], Begin(modes, t[0]));
    } else {
      assert s.diff[1..] == [];
    }
  }

  // ----------------------------------------------------------- privileges

  /** Nothing a user does to itself makes it an operator or a registered user,
      and nothing lifts a restriction. */
  predicate Humble(before: string, after: string) {
    && ('o' in after ==> 'o' in before)
    && ('R' in after <==> 'R' in before)
    && ('r' in before ==> 'r' in after)
  }

  lemma SetModeKeeps(modes: string, add: bool, c: char, d: char)
    ensures c != d ==> (d in SetMode(modes, add, c) <==> d in modes)
    ensures add && d in modes ==> d in SetMode(modes, add, c)
    ensures !add && d in SetMode(modes, add, c) ==> d in modes
  {
    WithoutMembers(modes, c, d);
  }

  lemma {:induction false} WalkHumble(e: Sender, modes: string, text: string, s: State)
    requires e.kind == User && Humble(modes, s.modes)
    ensures Humble(modes, Walk(e, text, s).modes)
    decreases text
  {
    if text != [] {
      var c := text[0];
      if IsSign(c) {
        WalkHumble(e, modes, text[1..], SetSign(s, c));
      } else if Allowed(e, s, c) {
        SetModeKeeps(s.modes, s.add, c, 'o');
        SetModeKeeps(s.modes, s.add, c, 'R');
        SetModeKeeps(s.modes, s.add, c, 'r');
        WalkHumble(e, modes, text[1..], Change(s, c));
      } else {
        WalkHumble(e, modes, text[1..], s.(replies := s.replies + 1));
      }
    }
  }

  datatype Request = Request(sender: Sender, own: bool, params: seq<string>)

  function Run(modes: string, run: seq<Request>): string
    decreases run
  {
    if run == [] then modes
    else
      var r := run[0];
      Run(if Accepted(r.sender, r.own, r.params) then Command(r.sender, modes, r.params).modes else modes, run[1..])
  }

  /** Every run of MODE commands of users, their own or others'. */
  lemma {:induction false} RunHumble(modes: string, run: seq<Request>)
    requires forall i :: 0 <= i < |run| ==> run[i].sender.kind == User
    ensures Humble(modes, Run(modes, run))
    decreases run
  {
    if run != [] {
      var r := run[0];
      var m := if Accepted(r.sender, r.own, r.params) then Command(r.sender, modes, r.params).modes else modes;
      if Accepted(r.sender, r.own, r.params) {
        var text := Text(r.params);
        WalkHumble(r.sender, modes, text[1..], Begin(modes, text[0]));
      }
      RunHumble(m, run[1..]);
    }
  }

  // ------------------------------------------------------ one letter

  /** May the sender change this letter of a user with these modes? */
  predicate May(e: Sender, modes: string, add: bool, c: char) {
    var restricted := if e.kind == User then 'r' in modes else e.restricted;
    var oper := if e.kind == User then 'o' in modes else e.oper;
    if e.kind == Server && c != 'B' && c != 'x' then true
    else if c in "bCiIsw" then true
    else if c == 'B' then !restricted
    else if c in "cqF" then !add || oper
    else if c == 'o' then !add
    else if c == 'r' then add
    else if c == 'x' then !restricted && (!add || e.cloak || oper || e.kind == Server)
    else false
  }

  lemma MayAllowed(e: Sender, s: State, c: char)
    ensures May(e, s.modes, s.add, c) <==> Allowed(e, s, c)
  {}

  lemma OneLetter(e: Sender, modes: string, add: bool, c: char)
    requires !IsSign(c)
    ensures var b := Begin(modes, if add then '+' else '-');
            Command(e, modes, [Grants.Text(add, c)]).modes == if Allowed(e, b, c) then Change(b, c).modes else modes
  {
    var t := Grants.Text(add, c);
    assert Text([t]) == t by { assert t + [] == t; }
    assert t[1..] == [c] && [c][1..] == [];
    var b := Begin(modes, t[0]);
    assert Walk(e, [], Change(b, c)) == Change(b, c);
    assert Walk(e, [], b.(replies := 1)) == b.(replies := 1);
  }

  /** One letter changes exactly if the sender may change it; nothing else does. */
  lemma LetterExact(e: Sender, modes: string, add: bool, c: char)
    requires !IsSign(c)
    ensures var after := Command(e, modes, [Grants.Text(add, c)]).modes;
            if May(e, modes, add, c) then Grants.Changed(modes, after, add, c) else after == modes
  {
    OneLetter(e, modes, add, c);
    MayAllowed(e, Begin(modes, if add then '+' else '-'), c);
    Grants.SetModeChanged(modes, add, c);
    if !add && c !in modes { WithoutAbsent(modes, c); }
  }

  /** Letters that everybody may change, with any signs and spread over any number
      of parameters: each ends as its last occurrence says. */
  lemma {:induction false} FreeLetters(e: Sender, text: string, s: State, c: char)
    requires forall i :: 0 <= i < |text| ==> text[i] in "+-bCiIsw"
    requires !IsSign(c) && ModeReplay.Single(s.modes, c) && |s.modes| + |text| <= 20
    ensures c in Walk(e, text, s).modes <==> Grants.Says(text, s.add, c, c in s.modes)
    decreases text
  {
    if text != [] {
      var d := text[0];
      assert forall i :: 0 <= i < |text[1..]| ==> text[1..][i] == text[i + 1];
      if IsSign(d) {
        FreeLetters(e, text[1..], SetSign(s, d), c);
      } else {
        Grants.SetSingle(s.modes, s.add, d, c);
        if !s.add && d !in s.modes { WithoutAbsent(s.modes, d); }
        FreeLetters(e, text[1..], Change(s, d), c);
      }
    }
  }

  lemma {:induction false} TextIsConcat(params: seq<string>)
    requires forall i :: 0 <= i < |params| ==> params[i] != []
    ensures Text(params) == Grants.Concat(params)
  {
    if params != [] { TextIsConcat(params[1..]); }
  }

  lemma LettersExact(e: Sender, modes: string, params: seq<string>, c: char)
    requires WellFormed(params) && (forall i :: 0 <= i < |params| ==> params[i] != []) && !IsSign(c)
    requires var t := Grants.Concat(params); (forall i :: 0 <= i < |t| ==> t[i] in "+-bCiIsw") && |modes| + |t| <= 20
    requires ModeReplay.Single(modes, c)
    ensures c in Command(e, modes, params).modes <==> Grants.Says(Grants.Concat(params), true, c, c in modes)
  {
    TextIsConcat(params);
    var t := Text(params);
    assert t[0] == params[0][0];
    FreeLetters(e, t[1..], Begin(modes, t[0]), c);
  }
}
