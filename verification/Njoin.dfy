/** Channel bursts between servers: the NJOIN lines a server sends for a channel
    (`Announce_Channel` in `numeric.c`) and how a peer reads and forwards them
    (`IRC_NJOIN` in `irc-server.c`). */
module Njoin {
  import opened Defines
  import opened CStrings
  import opened Masks
  import Request

  /** A longer buffer is sent before the next member. */
  const FULL := COMMAND_LEN - CLIENT_NICK_LEN - 8

  /** The channel user modes that have a prefix. */
  datatype Flags = Flags(q: bool, a: bool, o: bool, h: bool, v: bool)

  const NONE := Flags(false, false, false, false, false)

  /** A nick that joins with modes. */
  datatype Join = Join(nick: string, flags: Flags)

  datatype Member = Member(nick: string, modes: string)

  predicate Mark(c: char) { c == '~' || c == '&' || c == '@' || c == '%' || c == '+' }

  /** What a nick registered with the network looks like, as far as NJOIN cares. */
  predicate Nick(n: string) {
    0 < |n| < CLIENT_NICK_LEN && ',' !in n && ':' !in n && !Mark(n[0])
  }

  function On(c: char, on: bool): string { if on then [c] else [] }

  function Marks(f: Flags): (r: string)
    ensures |r| <= 5
  {
    On('~', f.q) + On('&', f.a) + On('@', f.o) + On('%', f.h) + On('+', f.v)
  }

  function Item(j: Join): string { Marks(j.flags) + j.nick }

  /** What a peer is to learn of a member: with flag X all modes, else o and v. */
  function Shown(m: Member, xop: bool): Join {
    Join(m.nick, Flags(xop && 'q' in m.modes, xop && 'a' in m.modes, 'o' in m.modes,
                       xop && 'h' in m.modes, 'v' in m.modes))
  }

  function ShownAll(ms: seq<Member>, xop: bool): (r: seq<Join>)
    ensures |r| == |ms| && forall i :: 0 <= i < |ms| ==> r[i] == Shown(ms[i], xop)
  {
    seq(|ms|, i requires 0 <= i < |ms| => Shown(ms[i], xop))
  }

  function Commas(js: seq<Join>): string {
    if js == [] then [] else if |js| == 1 then Item(js[0])
    else Commas(js[..|js| - 1]) + "," + Item(js[|js| - 1])
  }

  // ------------------------------------------------------------- reading

  /** The tokens strtok() yields for ",". */
  function Tokens(s: string): seq<string>
    decreases |s|
  {
    if s == [] then []
    else if s[0] == ',' then Tokens(s[1..])
    else
      var k := IndexOf(s, ',');
      if k < 0 then [s] else [s[..k]] + Tokens(s[k + 1..])
  }

  /** The flag of prefix c, set if `on`. */
  function Or(f: Flags, c: char, on: bool): Flags {
    if c == '~' then f.(q := f.q || on)
    else if c == '&' then f.(a := f.a || on)
    else if c == '@' then f.(o := f.o || on)
    else if c == '%' then f.(h := f.h || on)
    else if c == '+' then f.(v := f.v || on)
    else f
  }

  function Set(f: Flags, c: char): Flags { Or(f, c, true) }

  /** Prefixes cut off a token. */
  function Strip(t: string, f: Flags): Join {
    if t != [] && Mark(t[0]) then Strip(t[1..], Set(f, t[0])) else Join(t, f)
  }

  function StripAll(ts: seq<string>): (r: seq<Join>)
    ensures |r| == |ts| && forall i :: 0 <= i < |ts| ==> r[i] == Strip(ts[i], NONE)
  {
    seq(|ts|, i requires 0 <= i < |ts| => Strip(ts[i], NONE))
  }

  /** The joins a peer reads from the list of an NJOIN. */
  function Decode(list: string): seq<Join> { StripAll(Tokens(list)) }

  // ------------------------------------------------------ what is written is read

  lemma StripMark(c: char, on: bool, rest: string, f: Flags)
    requires Mark(c)
    ensures Strip(On(c, on) + rest, f) == Strip(rest, Or(f, c, on))
  {
    if on {
      assert ([c] + rest)[1..] == rest;
    } else {
      assert On(c, on) + rest == rest;
    }
  }

  /** Stripping an item gives back the nick with exactly its modes. */
  lemma StripItem(j: Join)
    requires j.nick == [] || !Mark(j.nick[0])
    ensures Strip(Item(j), NONE) == j
  {
    var f := j.flags;
    var v := On('+', f.v) + j.nick;
    var h := On('%', f.h) + v;
    var o := On('@', f.o) + h;
    var a := On('&', f.a) + o;
    ItemSplit(j);
    StripMark('~', f.q, a, NONE);
    StripMark('&', f.a, o, Flags(f.q, false, false, false, false));
    StripMark('@', f.o, h, Flags(f.q, f.a, false, false, false));
    StripMark('%', f.h, v, Flags(f.q, f.a, f.o, false, false));
    StripMark('+', f.v, j.nick, Flags(f.q, f.a, f.o, f.h, false));
  }

  lemma ItemSplit(j: Join)
    ensures var f := j.flags;
            Item(j) == On('~', f.q) + (On('&', f.a) + (On('@', f.o) + (On('%', f.h) + (On('+', f.v) + j.nick))))
  {}

  lemma MarksPlain(f: Flags)
    ensures ',' !in Marks(f) && ':' !in Marks(f)
  {}

  /** A string without a comma is one token. */
  lemma OneToken(t: string)
    requires t != [] && ',' !in t
    ensures Tokens(t) == [t]
  {
    assert t[0] in t;
  }

  lemma Assoc(a: string, b: string, c: string)
    ensures a + b + c == a + (b + c)
  {}

  lemma TwoTokens(s: string, t: string)
    requires s != [] && ',' !in s && t != [] && ',' !in t
    ensures Tokens(s + "," + t) == [s] + [t]
  {
    var w := s + "," + t;
    assert s[0] in s;
    FirstComma(s, "," + t);
    Assoc(s, ",", t);
    assert w[..|s|] == s && w[|s| + 1..] == t;
    OneToken(t);
  }

  /** The first token of a string that goes on behind its comma. */
  lemma MoreTokens(s: string, r: string)
    requires s != [] && s[0] != ',' && ',' in s
    ensures var k := IndexOf(s, ',');
            && k >= 0 && Tokens(s) == [s[..k]] + Tokens(s[k + 1..])
            && Tokens(s + r) == [s[..k]] + Tokens(s[k + 1..] + r)
  {
    var k, w := IndexOf(s, ','), s + r;
    assert s[..k] + s[k..] == s;
    Assoc(s[..k], s[k..], r);
    FirstComma(s[..k], s[k..] + r);
    assert IndexOf(s[..k], ',') < 0;
    assert w[..k] == s[..k] && w[k + 1..] == s[k + 1..] + r;
  }

  /** One more token at the end. */
  lemma {:induction false} TokensSnoc(s: string, t: string)
    requires t != [] && ',' !in t
    ensures Tokens(s + "," + t) == Tokens(s) + [t]
    decreases |s|
  {
    var w := s + "," + t;
    if s == [] {
      assert w[1..] == t;
      OneToken(t);
    } else if s[0] == ',' {
      assert w[1..] == s[1..] + "," + t;
      TokensSnoc(s[1..], t);
    } else if ',' !in s {
      OneToken(s);
      TwoTokens(s, t);
    } else {
      var rest := s[IndexOf(s, ',') + 1..];
      MoreTokens(s, "," + t);
      TokensSnoc(rest, t);
      Assoc(s, ",", t);
      Assoc(rest, ",", t);
    }
  }

  lemma {:induction false} FirstComma(s: string, r: string)
    requires r != [] && r[0] == ','
    ensures IndexOf(s + r, ',') == if IndexOf(s, ',') < 0 then |s| else IndexOf(s, ',')
  {
    if s == [] {
      assert s + r == r;
    } else {
      assert (s + r)[1..] == s[1..] + r;
      FirstComma(s[1..], r);
    }
  }

  /** It can be told from the text: something is written, and no prefix is taken
      for the nick or the nick for a prefix. */
  predicate Readable(j: Join) { Item(j) != [] && ',' !in j.nick && (j.nick == [] || !Mark(j.nick[0])) }

  lemma ReadOne(j: Join)
    requires Readable(j)
    ensures ',' !in Item(j) && Item(j) != [] && Tokens(Item(j)) == [Item(j)] && Strip(Item(j), NONE) == j
  {
    MarksPlain(j.flags);
    StripItem(j);
  }

  lemma ReadMore(js: seq<Join>, j: Join)
    requires Readable(j) && js != []
    ensures Decode(Commas(js + [j])) == Decode(Commas(js)) + [j]
  {
    assert (js + [j])[..|js|] == js;
    ReadOne(j);
    TokensSnoc(Commas(js), Item(j));
  }

  /** Reading a written list gives back each join, once and in order. */
  lemma {:induction false} ReadBack(js: seq<Join>)
    requires forall j :: j in js ==> Readable(j)
    ensures Decode(Commas(js)) == js
  {
    if js != [] {
      var n := |js| - 1;
      assert js[n] in js;
      assert js == js[..n] + [js[n]];
      if n == 0 {
        ReadOne(js[n]);
      } else {
        ReadBack(js[..n]);
        ReadMore(js[..n], js[n]);
      }
    }
  }

  // ------------------------------------------------------------- sending

  function Header(name: string): string { "NJOIN " + name + " :" }

  /** Everything a peer reads from these lines; `h` is the length of the header. */
  function Received(lines: seq<string>, h: nat): seq<Join> {
    if lines == [] then [] else
      var l := lines[|lines| - 1];
      Received(lines[..|lines| - 1], h) + (if h <= |l| then Decode(l[h..]) else [])
  }

  /** The list items in these lines, one after the other. */
  function Items(lines: seq<string>, h: nat): seq<string> {
    if lines == [] then [] else
      var l := lines[|lines| - 1];
      Items(lines[..|lines| - 1], h) + (if h <= |l| then Tokens(l[h..]) else [])
  }

  lemma {:induction false} ReceivedItems(lines: seq<string>, h: nat)
    ensures Received(lines, h) == StripAll(Items(lines, h))
  {
    if lines != [] { ReceivedItems(lines[..|lines| - 1], h); }
  }

  /** How many prefixes an item has. */
  function Prefixes(t: string): (k: nat)
    ensures k <= |t|
  {
    if t != [] && Mark(t[0]) then 1 + Prefixes(t[1..]) else 0
  }

  /** The flag that a prefix stands for. */
  predicate Flagged(f: Flags, c: char) {
    if c == '~' then f.q else if c == '&' then f.a else if c == '@' then f.o else if c == '%' then f.h else f.v
  }

  lemma {:induction false} PrefixesCut(t: string, f: Flags)
    ensures Strip(t, f).nick == t[Prefixes(t)..]
    ensures forall i :: 0 <= i < Prefixes(t) ==> Mark(t[i])
  {
    if t != [] && Mark(t[0]) { PrefixesCut(t[1..], Set(f, t[0])); }
  }

  lemma SetFlagged(f: Flags, d: char, c: char)
    requires Mark(d) && Mark(c)
    ensures Flagged(Set(f, d), c) <==> Flagged(f, c) || d == c
  {}

  lemma InCons(d: char, s: string, k: nat, c: char)
    requires 0 < k <= |s| && s[0] == d
    ensures c in s[..k] <==> d == c || c in s[1..][..k - 1]
  {
    assert s[..k] == [d] + s[1..][..k - 1];
  }

  /** A flag is set exactly if its prefix stands in front of the nick. */
  lemma {:induction false} PrefixFlag(t: string, f: Flags, c: char)
    requires Mark(c)
    ensures Flagged(Strip(t, f).flags, c) <==> Flagged(f, c) || c in t[..Prefixes(t)]
  {
    if t != [] && Mark(t[0]) {
      PrefixFlag(t[1..], Set(f, t[0]), c);
      SetFlagged(f, t[0], c);
      InCons(t[0], t, Prefixes(t), c);
    }
  }

  /** What is cut off an item: prefixes, and which of them there were. */
  lemma StripTells(t: string)
    ensures var j := Strip(t, NONE); var k := |t| - |j.nick|;
            && k >= 0 && t[k..] == j.nick && (forall i :: 0 <= i < k ==> t[i] in "~&@%+")
            && (j.flags.q <==> '~' in t[..k]) && (j.flags.a <==> '&' in t[..k])
            && (j.flags.o <==> '@' in t[..k]) && (j.flags.h <==> '%' in t[..k])
            && (j.flags.v <==> '+' in t[..k])
  {
    PrefixesCut(t, NONE);
    PrefixFlag(t, NONE, '~');
    PrefixFlag(t, NONE, '&');
    PrefixFlag(t, NONE, '@');
    PrefixFlag(t, NONE, '%');
    PrefixFlag(t, NONE, '+');
  }

  /** The item says this of a member: prefixes in front of the nick, '@' for o and
      '+' for v, and with flag X '~' for q, '&' for a and '%' for h. */
  predicate Spells(item: string, m: Member, xop: bool) {
    var k := |item| - |m.nick|;
    && k >= 0 && item[k..] == m.nick && (forall i :: 0 <= i < k ==> item[i] in "~&@%+")
    && ('@' in item[..k] <==> 'o' in m.modes) && ('+' in item[..k] <==> 'v' in m.modes)
    && ('~' in item[..k] <==> xop && 'q' in m.modes) && ('&' in item[..k] <==> xop && 'a' in m.modes)
    && ('%' in item[..k] <==> xop && 'h' in m.modes)
  }

  predicate SpellsAll(items: seq<string>, ms: seq<Member>, xop: bool) {
    |items| <= |ms| && forall i :: 0 <= i < |items| ==> Spells(items[i], ms[i], xop)
  }

  lemma ItemsSpell(lines: seq<string>, h: nat, ms: seq<Member>, xop: bool)
    requires Received(lines, h) <= ShownAll(ms, xop)
    ensures |Items(lines, h)| == |Received(lines, h)| && SpellsAll(Items(lines, h), ms, xop)
  {
    var items := Items(lines, h);
    ReceivedItems(lines, h);
    forall i | 0 <= i < |items| ensures Spells(items[i], ms[i], xop) {
      assert Received(lines, h)[i] == ShownAll(ms, xop)[i];
      StripTells(items[i]);
    }
  }

  lemma ReceivedSnoc(lines: seq<string>, name: string, js: seq<Join>)
    requires forall j :: j in js ==> Readable(j)
    ensures var h := |Header(name)|;
            Received(lines + [Header(name) + Commas(js)], h) == Received(lines, h) + js
  {
    var l := Header(name) + Commas(js);
    assert (lines + [l])[..|lines|] == lines && l[|Header(name)|..] == Commas(js);
    ReadBack(js);
  }

  method CatMark(s: string, c: char, on: bool) returns (str: string)
    requires |s| + |On(c, on)| < COMMAND_LEN
    ensures str == s + On(c, on)
  {
    str := s;
    if on {
      str := CatCut(str, [c], COMMAND_LEN);
    }
  }

  lemma Regroup(s: string, a: string, b: string, c: string, d: string, e: string)
    ensures s + a + b + c + d + e == s + (a + b + c + d + e)
  {}

  lemma ShownSnoc(ms: seq<Member>, i: nat, xop: bool)
    requires i < |ms|
    ensures ShownAll(ms[..i + 1], xop) == ShownAll(ms[..i], xop) + [Shown(ms[i], xop)]
    ensures ShownAll(ms[..i + 1], xop) <= ShownAll(ms, xop)
  {}

  /** A line of the burst: the header, something behind it, and room for CR LF. */
  predicate Line(l: string, h: string) { h < l && |l| < COMMAND_LEN - 2 }

  method AppendMarks(s: string, f: Flags) returns (str: string)
    requires |s| + |Marks(f)| < COMMAND_LEN
    ensures str == s + Marks(f)
  {
    var q := CatMark(s, '~', f.q);
    var a := CatMark(q, '&', f.a);
    var o := CatMark(a, '@', f.o);
    var h := CatMark(o, '%', f.h);
    str := CatMark(h, '+', f.v);
    Regroup(s, On('~', f.q), On('&', f.a), On('@', f.o), On('%', f.h), On('+', f.v));
  }

  /** The appends for one join: prefixes in order, then the nick. */
  method Append(s: string, j: Join) returns (str: string)
    requires |s| + |Item(j)| < COMMAND_LEN
    ensures str == s + Item(j)
  {
    var v := AppendMarks(s, j.flags);
    str := CatCut(v, j.nick, COMMAND_LEN);
  }

  lemma CommasSnoc(js: seq<Join>, j: Join)
    ensures Commas(js + [j]) == Commas(js) + (if js == [] then "" else ",") + Item(j)
  {
    assert (js + [j])[..|js|] == js;
    assert js == [] ==> Commas([]) + "" + Item(j) == Item(j);
  }

  lemma HeaderCommas(h: string, js: seq<Join>, j: Join)
    ensures h + Commas(js + [j]) == h + Commas(js) + (if js == [] then "" else ",") + Item(j)
    ensures |Item(j)| <= 5 + |j.nick|
  {
    CommasSnoc(js, j);
  }

  /** The buffer ends in a colon exactly when no nick has been appended. */
  lemma {:induction false} EndsInColon(name: string, js: seq<Join>)
    requires forall j :: j in js ==> j.nick != [] && ':' !in j.nick
    ensures var s := Header(name) + Commas(js); s[|s| - 1] == ':' <==> js == []
  {
    var s := Header(name) + Commas(js);
    if js != [] {
      var n := |js| - 1;
      var nick := js[n].nick;
      assert js[n] in js;
      assert js == js[..n] + [js[n]];
      CommasSnoc(js[..n], js[n]);
      assert s[|s| - 1] == nick[|nick| - 1];
    }
  }

  /** One member more in the buffer, behind a comma unless it is the first. */
  method Extend(name: string, s: string, m: Member, xop: bool, ghost pending: seq<Join>) returns (str: string)
    requires s == Header(name) + Commas(pending) && |s| + 6 + |m.nick| < COMMAND_LEN
    requires forall j :: j in pending ==> j.nick != [] && ':' !in j.nick
    ensures str == Header(name) + Commas(pending + [Shown(m, xop)])
    ensures |str| <= |s| + 6 + |m.nick|
  {
    EndsInColon(name, pending);
    var j := Join(m.nick, Flags(xop && 'q' in m.modes, xop && 'a' in m.modes, 'o' in m.modes,
                                xop && 'h' in m.modes, 'v' in m.modes));
    HeaderCommas(Header(name), pending, j);
    str := s;
    if str[|str| - 1] != ':' {
      str := CatCut(str, ",", COMMAND_LEN);
    }
    str := Append(str, j);
  }

  /** After `i` members: the lines sent, the joins in the buffer and the buffer. */
  ghost predicate Burst(name: string, members: seq<Member>, xop: bool, i: nat,
                        lines: seq<string>, pending: seq<Join>, str: string) {
    && i <= |members| && str == Header(name) + Commas(pending)
    && (forall j :: j in pending ==> Nick(j.nick))
    && (forall l :: l in lines ==> Line(l, Header(name)))
    && Received(lines, |Header(name)|) + pending == ShownAll(members[..i], xop)
  }

  lemma BurstGrows(name: string, members: seq<Member>, xop: bool, i: nat,
                   lines: seq<string>, pending: seq<Join>, str: string)
    requires Burst(name, members, xop, i, lines, pending, str) && i < |members| && Nick(members[i].nick)
    ensures var p := pending + [Shown(members[i], xop)];
            Burst(name, members, xop, i + 1, lines, p, Header(name) + Commas(p))
  {
    ShownSnoc(members, i, xop);
  }

  lemma BurstSent(name: string, members: seq<Member>, xop: bool, i: nat,
                  lines: seq<string>, pending: seq<Join>, str: string)
    requires Burst(name, members, xop, i, lines, pending, str)
    requires pending != [] && |str| < COMMAND_LEN - 2
    ensures Burst(name, members, xop, i, lines + [str], [], Header(name))
  {
    assert forall j :: j in pending ==> Readable(j);
    ReceivedSnoc(lines, name, pending);
    CommasEmpty(pending);
    assert Received(lines + [str], |Header(name)|) + [] == ShownAll(members[..i], xop);
  }

  /** The lines fit and say of the first members, in order, who they are and what
      modes they have. */
  ghost predicate Truthful(name: string, members: seq<Member>, xop: bool, lines: seq<string>) {
    var h := |Header(name)|;
    && (forall l :: l in lines ==> Line(l, Header(name)))
    && Received(lines, h) <= ShownAll(members, xop)
    && |Items(lines, h)| == |Received(lines, h)| && SpellsAll(Items(lines, h), members, xop)
  }

  lemma BurstRead(name: string, members: seq<Member>, xop: bool, i: nat,
                  lines: seq<string>, pending: seq<Join>, str: string)
    requires Burst(name, members, xop, i, lines, pending, str)
    ensures Truthful(name, members, xop, lines)
    ensures i == |members| && pending == [] ==> Received(lines, |Header(name)|) == ShownAll(members, xop)
  {
    assert i == |members| ==> members[..i] == members;
    assert ShownAll(members[..i], xop) <= ShownAll(members, xop);
    ItemsSpell(lines, |Header(name)|, members, xop);
  }

  /** The loop has handled `i` members, and the link did not fail. */
  ghost predicate InBurst(name: string, members: seq<Member>, xop: bool, i: nat,
                          lines: seq<string>, pending: seq<Join>, str: string, writes: nat) {
    && Burst(name, members, xop, i, lines, pending, str)
    && |str| <= FULL && |lines| <= writes && forall k :: 0 <= k < |lines| ==> |lines[k]| > FULL
  }

  /** One member: its item is appended, and a full buffer is sent. */
  method Enter(name: string, members: seq<Member>, xop: bool, i: nat, lines: seq<string>,
               ghost pending: seq<Join>, str: string, writes: nat)
    returns (sent: bool, lines1: seq<string>, ghost pending1: seq<Join>, str1: string)
    requires InBurst(name, members, xop, i, lines, pending, str, writes)
    requires |name| < CHANNEL_NAME_LEN && i < |members| && Nick(members[i].nick)
    ensures sent ==> InBurst(name, members, xop, i + 1, lines1, pending1, str1, writes)
    ensures !sent ==> lines1 == lines && |lines| == writes
  {
    BurstGrows(name, members, xop, i, lines, pending, str);
    str1 := Extend(name, str, members[i], xop, pending);
    sent, lines1, pending1 := true, lines, pending + [Shown(members[i], xop)];
    if |str1| > FULL {
      if |lines| == writes {
        return false, lines, pending1, str1;
      }
      BurstSent(name, members, xop, i + 1, lines, pending1, str1);
      lines1, pending1 := lines + [str1], [];
      str1 := Cut(Header(name), COMMAND_LEN);
    }
  }

  /** What is left in the buffer is sent. */
  method Finish(name: string, members: seq<Member>, xop: bool, lines: seq<string>,
                ghost pending: seq<Join>, str: string, writes: nat)
    returns (connected: bool, lines1: seq<string>)
    requires InBurst(name, members, xop, |members|, lines, pending, str, writes)
    ensures Truthful(name, members, xop, lines1)
    ensures connected ==> Received(lines1, |Header(name)|) == ShownAll(members, xop)
    ensures forall k :: 0 <= k < |lines1| - 1 ==> |lines1[k]| > FULL
    ensures !connected ==> |lines1| == writes
  {
    BurstRead(name, members, xop, |members|, lines, pending, str);
    EndsInColon(name, pending);
    connected, lines1 := true, lines;
    if str[|str| - 1] != ':' {
      if |lines| == writes {
        return false, lines;
      }
      BurstSent(name, members, xop, |members|, lines, pending, str);
      lines1 := lines + [str];
      BurstRead(name, members, xop, |members|, lines1, [], Header(name));
    }
  }

  /** `Announce_Channel` to a peer that knows NJOIN. The link takes `writes`
      lines before it fails. No append is cut, and what the peer reads is every
      member once, in order, with its modes. */
  method Announce(name: string, members: seq<Member>, xop: bool, writes: nat)
    returns (connected: bool, lines: seq<string>)
    requires |name| < CHANNEL_NAME_LEN
    requires forall m :: m in members ==> Nick(m.nick)
    ensures connected ==> Received(lines, |Header(name)|) == ShownAll(members, xop)
    ensures Truthful(name, members, xop, lines)
    ensures forall k :: 0 <= k < |lines| - 1 ==> |lines[k]| > 473
    ensures !connected ==> |lines| == writes
  {
    var str := Cut(Header(name), COMMAND_LEN);
    lines := [];
    ghost var pending: seq<Join> := [];
    var i := 0;
    while i < |members|
      invariant InBurst(name, members, xop, i, lines, pending, str, writes)
    {
      BurstRead(name, members, xop, i, lines, pending, str);
      var sent;
      sent, lines, pending, str := Enter(name, members, xop, i, lines, pending, str, writes);
      if !sent {
        return false, lines;
      }
      i := i + 1;
    }
    connected, lines := Finish(name, members, xop, lines, pending, str, writes);
  }

  // ----------------------------------------------------------- receiving

  /** Who is on the channel, and who was killed: `IRC_NJOIN` kills a client that
      cannot join. Clients are handles. */
  datatype Room = Room(on: set<int>, gone: set<int>)

  /** A lookup yields a handle, negative for nobody; the killed are not found. */
  predicate Meets(r: Room, c: int) { c >= 0 && c !in r.gone }

  /** `valid` says that the channel has a valid name. */
  predicate Joins(r: Room, c: int, valid: bool) { Meets(r, c) && valid && c !in r.on }

  function Entered(r: Room, c: int, valid: bool): Room {
    if !Meets(r, c) then r
    else if Joins(r, c, valid) then r.(on := r.on + {c})
    else Room(r.on - {c}, r.gone + {c})
  }

  function RoomAfter(js: seq<Join>, find: string -> int, valid: bool, r: Room): Room {
    if js == [] then r
    else Entered(RoomAfter(js[..|js| - 1], find, valid, r), find(js[|js| - 1].nick), valid)
  }

  /** The joins that succeed, in order. */
  function Admitted(js: seq<Join>, find: string -> int, valid: bool, r: Room): seq<Join> {
    if js == [] then [] else
      var j, before := js[|js| - 1], js[..|js| - 1];
      Admitted(before, find, valid, r)
      + (if Joins(RoomAfter(before, find, valid, r), find(j.nick), valid) then [j] else [])
  }

  /** Line after line is the same as all at once. */
  lemma {:induction false} AdmittedAppend(a: seq<Join>, b: seq<Join>, find: string -> int, valid: bool, r: Room)
    ensures RoomAfter(a + b, find, valid, r) == RoomAfter(b, find, valid, RoomAfter(a, find, valid, r))
    ensures Admitted(a + b, find, valid, r) ==
            Admitted(a, find, valid, r) + Admitted(b, find, valid, RoomAfter(a, find, valid, r))
    decreases |b|
  {
    if b == [] {
      assert a + b == a;
    } else {
      assert (a + b)[..|a + b| - 1] == a + b[..|b| - 1];
      AdmittedAppend(a, b[..|b| - 1], find, valid, r);
    }
  }

  /** Somebody before position n of the list is this client. */
  predicate Earlier(js: seq<Join>, n: nat, find: string -> int, c: int) {
    exists i :: 0 <= i < n <= |js| && find(js[i].nick) == c
  }

  /** Who is on the channel and who is killed after a list: a client that is known
      and was neither there nor gone joins, unless the channel is invalid or the
      list names it again; all others that are named are killed. */
  lemma {:induction false} RoomExact(js: seq<Join>, find: string -> int, valid: bool, r: Room, c: int)
    requires r.on !! r.gone
    ensures var t := RoomAfter(js, find, valid, r);
            && (c < 0 || c in r.gone || !Earlier(js, |js|, find, c) ==> (c in t.on <==> c in r.on) && (c in t.gone <==> c in r.gone))
            && (c >= 0 && c !in r.gone && Earlier(js, |js|, find, c) && (c in r.on || !valid) ==> c !in t.on && c in t.gone)
            && t.on !! t.gone
            && (c >= 0 && c !in r.gone && c !in r.on && valid && Earlier(js, |js|, find, c) ==>
                  (c in t.on <==> c !in t.gone))
  {
    if js != [] {
      var n := |js| - 1;
      var before := js[..n];
      RoomExact(before, find, valid, r, c);
      EarlierLast(js, find, c);
    }
  }

  lemma EarlierLast(js: seq<Join>, find: string -> int, c: int)
    requires js != []
    ensures Earlier(js, |js|, find, c) <==> Earlier(js[..|js| - 1], |js| - 1, find, c) || find(js[|js| - 1].nick) == c
  {
    var n := |js| - 1;
    if Earlier(js[..n], n, find, c) {
      var i :| 0 <= i < n && find(js[..n][i].nick) == c;
      assert js[i] == js[..n][i];
    }
    if Earlier(js, |js|, find, c) {
      var i :| 0 <= i < |js| && find(js[i].nick) == c;
      assert i < n ==> js[..n][i] == js[i];
    }
  }

  /** Who joins by the last item of a list: a client that is known, not on the
      channel, not killed and not named before, if the channel is valid. */
  lemma AdmittedExact(js: seq<Join>, j: Join, find: string -> int, valid: bool, r: Room)
    requires r.on !! r.gone
    ensures var c := find(j.nick);
            Admitted(js + [j], find, valid, r) == Admitted(js, find, valid, r)
            + if valid && c >= 0 && c !in r.on && c !in r.gone && !Earlier(js, |js|, find, c) then [j] else []
  {
    var c := find(j.nick);
    assert (js + [j])[..|js|] == js;
    RoomExact(js, find, valid, r, c);
  }

  /** The clients of a list. */
  function Clients(js: seq<Join>, find: string -> int): (cs: set<int>)
    ensures forall i :: 0 <= i < |js| ==> find(js[i].nick) in cs
  {
    if js == [] then {} else
      var n := |js| - 1;
      assert forall i :: 0 <= i < n ==> js[i] == js[..n][i];
      Clients(js[..n], find) + {find(js[n].nick)}
  }

  /** The listed clients are known, not on the channel, and different. */
  predicate AllNew(js: seq<Join>, find: string -> int, r: Room) {
    js == [] ||
    var n := |js| - 1; var c := find(js[n].nick);
    && AllNew(js[..n], find, r)
    && c >= 0 && c !in r.on && c !in r.gone && c !in Clients(js[..n], find)
  }

  lemma OneMore(js: seq<Join>, j: Join, find: string -> int, r: Room, now: Room)
    requires RoomAfter(js, find, true, r) == now && Joins(now, find(j.nick), true)
    ensures Admitted(js + [j], find, true, r) == Admitted(js, find, true, r) + [j]
    ensures RoomAfter(js + [j], find, true, r) == now.(on := now.on + {find(j.nick)})
    ensures Clients(js + [j], find) == Clients(js, find) + {find(j.nick)}
  {
    assert (js + [j])[..|js|] == js;
  }

  /** Then all of them join. */
  lemma {:induction false} AdmittedAll(js: seq<Join>, find: string -> int, r: Room)
    requires AllNew(js, find, r)
    ensures Admitted(js, find, true, r) == js
    ensures RoomAfter(js, find, true, r) == Room(r.on + Clients(js, find), r.gone)
  {
    if js != [] {
      var n := |js| - 1;
      var before := js[..n];
      AdmittedAll(before, find, r);
      assert js == before + [js[n]];
      OneMore(before, js[n], find, r, Room(r.on + Clients(before, find), r.gone));
    }
  }

  /** A client listed twice joins once, and is then killed. */
  lemma ListedTwice(j: Join, find: string -> int, r: Room)
    requires find(j.nick) >= 0 && find(j.nick) !in r.on + r.gone
    ensures Admitted([j, j], find, true, r) == [j] && find(j.nick) in RoomAfter([j, j], find, true, r).gone
  {
    var c := find(j.nick);
    assert [j, j] == [j] + [j] && [j][..0] == [];
    AdmittedAppend([j], [j], find, true, r);
    assert RoomAfter([j], find, true, r) == r.(on := r.on + {c});
    assert Admitted([j], find, true, r) == [j];
  }

  /** A whole burst, read by a peer that knows the members and has none of them
      on the channel: every member joins with its modes. */
  lemma BurstArrives(lines: seq<string>, h: nat, members: seq<Member>, xop: bool, find: string -> int, r: Room)
    requires Received(lines, h) == ShownAll(members, xop)
    requires AllNew(ShownAll(members, xop), find, r)
    ensures var joined := Admitted(Received(lines, h), find, true, r);
            |joined| == |members| && forall i :: 0 <= i < |members| ==> Has(joined[i], members[i], xop)
  {
    AdmittedAll(ShownAll(members, xop), find, r);
  }

  /** The join has the nick and modes of the member; q, a and h only with flag X. */
  predicate Has(j: Join, m: Member, xop: bool) {
    && j.nick == m.nick && (j.flags.o <==> 'o' in m.modes) && (j.flags.v <==> 'v' in m.modes)
    && (j.flags.q <==> xop && 'q' in m.modes) && (j.flags.a <==> xop && 'a' in m.modes)
    && (j.flags.h <==> xop && 'h' in m.modes)
  }

  /** strtok() on what is left of the list. */
  method NextToken(s: string) returns (found: bool, token: string, rest: string)
    ensures Tokens(s) == if found then [token] + Tokens(rest) else []
    ensures found ==> token != [] && ',' !in token && |token| + |rest| <= |s|
    ensures found && rest != [] ==> |token| + 1 + |rest| <= |s|
  {
    rest := s;
    while rest != [] && rest[0] == ','
      invariant Tokens(rest) == Tokens(s) && |rest| <= |s|
      decreases |rest|
    {
      rest := rest[1..];
    }
    if rest == [] {
      return false, "", rest;
    }
    var k := 0;
    while k < |rest| && rest[k] != ','
      invariant 0 <= k <= |rest| && ',' !in rest[..k]
      invariant k == 0 ==> rest[0] != ','
    {
      k := k + 1;
    }
    found, token := true, rest[..k];
    TokensHead(rest, k);
    rest := if k < |rest| then rest[k + 1..] else "";
  }

  lemma {:induction false} FirstCommaAt(s: string, k: nat)
    requires k <= |s| && ',' !in s[..k] && (k < |s| ==> s[k] == ',')
    ensures IndexOf(s, ',') == if k < |s| then k else -1
  {
    if 0 < k {
      assert s[..k][0] == s[0] && s[..k][1..] == s[1..][..k - 1];
      FirstCommaAt(s[1..], k - 1);
    }
  }

  lemma TokensHead(s: string, k: nat)
    requires 0 < k <= |s| && ',' !in s[..k] && (k < |s| ==> s[k] == ',')
    ensures Tokens(s) == [s[..k]] + Tokens(if k < |s| then s[k + 1..] else "")
  {
    FirstCommaAt(s, k);
    assert s[..k][0] == s[0];
    if k == |s| { assert s[..k] == s; }
  }

  lemma SetLonger(f: Flags, c: char)
    ensures |Marks(Set(f, c))| <= |Marks(f)| + 1
  {}

  lemma {:induction false} StripShrinks(t: string, f: Flags)
    ensures var j := Strip(t, f);
            && |Marks(j.flags)| + |j.nick| <= |Marks(f)| + |t|
            && (j.nick == [] || !Mark(j.nick[0]))
            && (',' !in t ==> ',' !in j.nick)
  {
    if t != [] && Mark(t[0]) {
      StripShrinks(t[1..], Set(f, t[0]));
      SetLonger(f, t[0]);
      assert ',' !in t ==> ',' !in t[1..];
    }
  }

  /** A token says something even if it is prefixes alone. */
  lemma {:induction false} StripSays(t: string, f: Flags)
    requires t != [] || Marks(f) != []
    ensures Item(Strip(t, f)) != []
  {
    if t != [] && Mark(t[0]) {
      assert Marks(Set(f, t[0])) != [];
      StripSays(t[1..], Set(f, t[0]));
    }
  }

  /** The loop that cuts off prefixes. */
  method CutPrefixes(token: string) returns (j: Join)
    ensures j == Strip(token, NONE)
  {
    var ptr, f := token, NONE;
    while ptr != [] && Mark(ptr[0])
      invariant Strip(ptr, f) == Strip(token, NONE)
      decreases |ptr|
    {
      ptr, f := ptr[1..], Set(f, ptr[0]);
    }
    j := Join(ptr, f);
  }

  lemma CommasEmpty(js: seq<Join>)
    requires forall j :: j in js ==> Readable(j)
    ensures Commas(js) == "" <==> js == []
  {
    if js != [] { assert js[|js| - 1] in js; }
  }

  /** The length of a list and the comma behind it. */
  function Span(s: string): nat { if s == "" then 0 else |s| + 1 }

  /** One join more in the list for the other servers. */
  method Forward(s: string, j: Join, ghost js: seq<Join>) returns (str: string)
    requires s == Commas(js) && Span(s) + |Item(j)| < COMMAND_LEN
    requires forall k :: k in js ==> Readable(k)
    ensures str == Commas(js + [j]) && |str| == Span(s) + |Item(j)|
  {
    CommasEmpty(js);
    CommasSnoc(js, j);
    str := s;
    if str != "" {
      str := CatCut(str, ",", COMMAND_LEN);
    }
    str := Append(str, j);
  }

  lemma AdmittedSnoc(read: seq<string>, t: string, find: string -> int, valid: bool, r: Room)
    ensures var j, before := Strip(t, NONE), RoomAfter(StripAll(read), find, valid, r);
            && Admitted(StripAll(read + [t]), find, valid, r) ==
               Admitted(StripAll(read), find, valid, r) + (if Joins(before, find(j.nick), valid) then [j] else [])
            && RoomAfter(StripAll(read + [t]), find, valid, r) == Entered(before, find(j.nick), valid)
  {
    assert StripAll(read + [t])[..|read|] == StripAll(read);
  }

  predicate ReadableAll(js: seq<Join>) { forall j :: j in js ==> Readable(j) }

  /** One round of `IRC_NJOIN`: an unknown nick is skipped, a client that cannot
      join is killed. */
  method Take(token: string, find: string -> int, valid: bool, room: Room, js: seq<Join>, s: string)
    returns (joined: seq<Join>, forward: string, left: Room)
    requires token != [] && ',' !in token && s == Commas(js) && ReadableAll(js)
    requires Span(s) + |token| < COMMAND_LEN
    ensures var j := Strip(token, NONE);
            && joined == js + (if Joins(room, find(j.nick), valid) then [j] else [])
            && left == Entered(room, find(j.nick), valid)
    ensures forward == Commas(joined) && ReadableAll(joined) && |forward| <= Span(s) + |token|
  {
    joined, forward, left := js, s, room;
    var j := CutPrefixes(token);
    StripShrinks(token, NONE);
    StripSays(token, NONE);
    var c := find(j.nick);
    if c < 0 || c in room.gone {
      return;
    }
    if !valid || c in room.on {
      left := Room(room.on - {c}, room.gone + {c});
      return;
    }
    left := room.(on := room.on + {c});
    forward := Forward(forward, j, joined);
    joined := joined + [j];
  }

  /** After these tokens: who joined, the list for the other servers, the room. */
  ghost predicate Taken(read: seq<string>, find: string -> int, valid: bool, r: Room,
                        joined: seq<Join>, forward: string, room: Room) {
    && joined == Admitted(StripAll(read), find, valid, r) && room == RoomAfter(StripAll(read), find, valid, r)
    && forward == Commas(joined) && ReadableAll(joined)
  }

  lemma TakenNext(read: seq<string>, t: string, find: string -> int, valid: bool, r: Room, js: seq<Join>, s: string,
                  room: Room, joined: seq<Join>, forward: string, left: Room)
    requires Taken(read, find, valid, r, js, s, room)
    requires var j := Strip(t, NONE);
             && joined == js + (if Joins(room, find(j.nick), valid) then [j] else [])
             && left == Entered(room, find(j.nick), valid)
    requires forward == Commas(joined) && ReadableAll(joined)
    ensures Taken(read + [t], find, valid, r, joined, forward, left)
  {
    AdmittedSnoc(read, t, find, valid, r);
  }

  /** The same round, with the tokens read so far. */
  method TakeNext(token: string, find: string -> int, valid: bool, room: Room, js: seq<Join>, s: string,
                  ghost read: seq<string>, ghost r: Room)
    returns (joined: seq<Join>, forward: string, left: Room)
    requires token != [] && ',' !in token && Span(s) + |token| < COMMAND_LEN
    requires Taken(read, find, valid, r, js, s, room)
    ensures Taken(read + [token], find, valid, r, joined, forward, left) && |forward| <= Span(s) + |token|
  {
    joined, forward, left := Take(token, find, valid, room, js, s);
    TakenNext(read, token, find, valid, r, js, s, room, joined, forward, left);
  }

  /** The tokens read and those still in `rest` are the tokens of the list. */
  predicate Left(list: string, read: seq<string>, rest: string) { Tokens(list) == read + Tokens(rest) }

  lemma LeftStep(list: string, read: seq<string>, s: string, found: bool, token: string, rest: string)
    requires Left(list, read, s) && Tokens(s) == if found then [token] + Tokens(rest) else []
    ensures if found then Left(list, read + [token], rest) else Tokens(list) == read
  {
    if found { assert read + ([token] + Tokens(rest)) == read + [token] + Tokens(rest); }
    else { assert read + [] == read; }
  }

  lemma TakenAll(list: string, find: string -> int, valid: bool, r: Room,
                 joined: seq<Join>, forward: string, room: Room)
    requires Taken(Tokens(list), find, valid, r, joined, forward, room)
    ensures joined == Admitted(Decode(list), find, valid, r) && room == RoomAfter(Decode(list), find, valid, r)
    ensures Decode(forward) == joined && (forward == "" <==> joined == [])
  {
    ReadBack(joined);
    CommasEmpty(joined);
  }

  /** `IRC_NJOIN`: the clients found that can join do so with the modes they came
      with, those that cannot are killed, and the forwarded list says who joined;
      it is never longer than the one received. */
  method Receive(arg: string, find: string -> int, valid: bool, r: Room)
    returns (joined: seq<Join>, forward: string, room: Room)
    ensures var list := Cut(arg, COMMAND_LEN);
            joined == Admitted(Decode(list), find, valid, r) && room == RoomAfter(Decode(list), find, valid, r)
    ensures Decode(forward) == joined && |forward| <= |arg|
    ensures forward == "" <==> joined == []
  {
    var list := Cut(arg, COMMAND_LEN);
    joined, forward, room := [], "", r;
    var rest := list;
    ghost var read: seq<string> := [];
    while true
      invariant Left(list, read, rest)
      invariant |forward| <= |list| && (rest != "" ==> Span(forward) + |rest| <= |list|)
      invariant Taken(read, find, valid, r, joined, forward, room)
      decreases |rest|
    {
      ghost var t := rest;
      var found, token;
      found, token, rest := NextToken(rest);
      LeftStep(list, read, t, found, token, rest);
      if !found {
        break;
      }
      joined, forward, room := TakeNext(token, find, valid, room, joined, forward, read, r);
      read := read + [token];
    }
    TakenAll(list, find, valid, r, joined, forward, room);
  }

  // ------------------------------------------------------------ on the wire

  /** Total length of tokens, each with a separator. */
  function Total(ts: seq<string>): nat {
    if ts == [] then 0 else |ts[0]| + 1 + Total(ts[1..])
  }

  lemma TotalCons(t: string, ts: seq<string>)
    ensures Total([t] + ts) == |t| + 1 + Total(ts)
  {
    assert ([t] + ts)[1..] == ts;
  }

  lemma {:induction false} TotalSnoc(ts: seq<string>, t: string)
    ensures Total(ts + [t]) == Total(ts) + |t| + 1
  {
    if ts != [] {
      assert (ts + [t])[1..] == ts[1..] + [t];
      TotalSnoc(ts[1..], t);
    }
  }

  lemma {:induction false} TokensTotal(s: string)
    ensures Total(Tokens(s)) <= |s| + 1
    decreases |s|
  {
    if s != [] {
      if s[0] == ',' {
        TokensTotal(s[1..]);
      } else {
        var k := IndexOf(s, ',');
        if k >= 0 {
          TokensTotal(s[k + 1..]);
          TotalCons(s[..k], Tokens(s[k + 1..]));
        } else {
          TotalCons(s, []);
        }
      }
    }
  }

  lemma {:induction false} CommasTotal(ts: seq<string>)
    ensures |Commas(StripAll(ts))| <= Total(ts)
    ensures ts != [] ==> |Commas(StripAll(ts))| < Total(ts)
    decreases |ts|
  {
    if ts != [] {
      var n := |ts| - 1;
      CommasTotal(ts[..n]);
      assert ts == ts[..n] + [ts[n]];
      TotalSnoc(ts[..n], ts[n]);
      StripShrinks(ts[n], NONE);
      assert StripAll(ts) == StripAll(ts[..n]) + [Strip(ts[n], NONE)];
      CommasSnoc(StripAll(ts[..n]), Strip(ts[n], NONE));
    }
  }

  /** A list is never shorter than the plainest way to write what it says. */
  lemma NoShorterList(s: string)
    ensures |Commas(Decode(s))| <= |s|
  {
    TokensTotal(s);
    CommasTotal(Tokens(s));
  }

  /** `Conn_WriteStr` on a line with its server prefix: cut and marked if it does
      not fit with its CR LF. */
  function Wire(text: string): string {
    if |text| > COMMAND_LEN - 3 then text[..COMMAND_LEN - 8] + "[CUT]" else text
  }

  /** On the wire a line also carries its prefix. It arrives whole exactly when
      prefix and line leave room for CR LF; else joins are lost or changed. */
  lemma WireExact(server: string, name: string, js: seq<Join>)
    requires |server| < CLIENT_ID_LEN && |name| < CHANNEL_NAME_LEN && ReadableAll(js)
    ensures var head := ":" + server + " " + Header(name);
            var wire := Wire(head + Commas(js));
            && head <= wire
            && (Decode(wire[|head|..]) == js <==>
                1 + |server| + 1 + |Header(name) + Commas(js)| <= COMMAND_LEN - 3)
  {
    var head := ":" + server + " " + Header(name);
    var wire := Wire(head + Commas(js));
    if |head + Commas(js)| <= COMMAND_LEN - 3 {
      assert wire[|head|..] == Commas(js);
      ReadBack(js);
    } else {
      assert wire[..|head|] == head;
      NoShorterList(wire[|head|..]);
    }
  }

  /** With a server name of 35 characters or more every line that was sent because
      it was full is cut. */
  lemma FullLineLost(server: string, name: string, js: seq<Join>)
    requires 35 <= |server| < CLIENT_ID_LEN && |name| < CHANNEL_NAME_LEN && ReadableAll(js)
    requires |Header(name) + Commas(js)| > FULL
    ensures var head := ":" + server + " " + Header(name);
            head <= Wire(head + Commas(js)) && Decode(Wire(head + Commas(js))[|head|..]) != js
  {
    WireExact(server, name, js);
  }

  /** With its prefix, a line of a burst is parsed into the command NJOIN with the
      channel and the list, but for white space at the end of the last nick. */
  lemma LineParsed(server: string, name: string, js: seq<Join>)
    requires ' ' !in server && Request.Plain(name)
    ensures Request.Parse(":" + server + " " + Header(name) + Commas(js))
            == Request.Request(Request.From(server), "NJOIN", [name, Request.TrimRight(Commas(js))])
  {
    var list := Commas(js);
    Request.ParseTrailing(server, "NJOIN", [name], list);
    assert [name] + [":" + list] == [name, ":" + list];
    assert [name] + [Request.TrimRight(list)] == [name, Request.TrimRight(list)];
    Request.JoinedFirst(name, [":" + list]);
    Spelled(server, name, list);
  }

  lemma Spelled(o: string, c: string, t: string)
    ensures ":" + o + " " + Header(c) + t == ":" + o + " " + "NJOIN" + (" " + (c + (" " + (":" + t))))
  {
    assert "NJOIN " == "NJOIN" + " " && " :" == " " + ":";
  }
}
