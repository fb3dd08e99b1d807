/** Clients and channels together: the operations that move both, the netsplit
    removal, JOIN 0, and what every run of them keeps. */
module Network {
  import opened Defines
  import opened CStrings
  import opened Directory
  import opened Clients
  import opened Channels
  import Hash

  datatype Net = Net(cl: Table, ch: Chans)

  predicate CanJoin(cl: Table, c: Ptr) {
    c in cl.rec && (cl.rec[c].kind == User || cl.rec[c].kind == Service)
  }

  /** Members are live users or services. */
  ghost predicate LiveMembers(n: Net) {
    forall l :: l in n.ch.links ==> CanJoin(n.cl, l.client)
  }

  ghost predicate ValidNet(n: Net) {
    Valid(n.cl) && ValidChans(n.ch) && LiveMembers(n)
  }

  /** All memberships of the clients in `gone`. */
  function Memberships(ch: Chans, gone: set<Ptr>): set<(Ptr, Ptr)> {
    set l | l in ch.links && l.client in gone :: (l.client, l.channel)
  }

  /** Without the clients in `gone` and their memberships. */
  function Purged(n: Net, gone: set<Ptr>): Net {
    Net(Without(n.cl, gone), Drop(n.ch, Memberships(n.ch, gone)))
  }

  lemma DropNothing(t: Chans, pairs: set<(Ptr, Ptr)>)
    requires ValidChans(t)
    requires forall l :: l in t.links ==> (l.client, l.channel) !in pairs
    ensures Drop(t, pairs) == t
  {
    KeepLinksAll(t.links, pairs);
    assert Dead(t, t.links) == {};
    KeepAll(t.list);
    assert Drop(t, pairs).rec == t.rec;
  }

  lemma {:induction false} KeepAll(s: seq<Ptr>)
    ensures Keep(s, {}) == s
  {
    if s != [] { KeepAll(s[1..]); }
  }

  lemma DropSame(t: Chans, a: set<(Ptr, Ptr)>, b: set<(Ptr, Ptr)>)
    requires forall l :: l in t.links ==> ((l.client, l.channel) in a <==> (l.client, l.channel) in b)
    ensures Drop(t, a) == Drop(t, b)
  {
    KeepLinksSame(t.links, a, b);
  }

  /** Purging in two steps is purging at once. */
  lemma PurgedPurged(n: Net, a: set<Ptr>, b: set<Ptr>)
    ensures Purged(Purged(n, a), b) == Purged(n, a + b)
  {
    WithoutWithout(n.cl, a, b);
    var ma := Memberships(n.ch, a);
    var mb := Memberships(Drop(n.ch, ma), b);
    DropDrop(n.ch, ma, mb);
    DropSame(n.ch, ma + mb, Memberships(n.ch, a + b));
  }

  lemma PurgedValid(n: Net, gone: set<Ptr>)
    requires ValidNet(n) && Closed(n.cl, gone) && THIS !in gone
    ensures ValidNet(Purged(n, gone))
  {
    WithoutValid(n.cl, gone);
    DropValid(n.ch, Memberships(n.ch, gone));
    forall l | l in Purged(n, gone).ch.links ensures CanJoin(Purged(n, gone).cl, l.client) {
      assert l in n.ch.links;
    }
  }

  /** The global lists, updated in place. */
  class Server {
    var cl: Table
    var ch: Chans

    ghost function State(): Net
      reads this
    {
      Net(cl, ch)
    }

    /** Client_Init and Channel_Init: this server alone. */
    constructor (id: string)
      requires id != []
      ensures ValidNet(State()) && cl.list == [THIS] && ch.list == [] && ch.links == []
    {
      var name := Cut(id, CLIENT_ID_LEN);
      var h := Hash.Compute(name);
      cl := Table([THIS], map[THIS := Client(name, h, Kind.Server, THIS, 1)], 1);
      ch := Chans([], map[], [], 0);
    }

    // ------------------------------------------------------ channel side

    /** `Delete_Channel` */
    method DeleteChannel(p: Ptr)
      requires p in ch.list && NewestFirst(ch.list)
      modifies this`ch
      ensures ch == old(ch).(list := Keep(old(ch).list, {p}), rec := old(ch).rec - {p})
    {
      var k := 0;
      while ch.list[k] != p
        invariant 0 <= k < |ch.list| && p !in ch.list[..k]
        decreases |ch.list| - k
      {
        k := k + 1;
      }
      KeepOne(ch.list, k);
      ch := ch.(list := ch.list[..k] + ch.list[k + 1..], rec := ch.rec - {p});
    }

    /** The unlinking in `Remove_Client`. */
    method UnlinkAt(k: nat)
      requires ValidChans(ch) && k < |ch.links|
      modifies this`ch
      ensures ch == Drop(old(ch), {(old(ch).links[k].client, old(ch).links[k].channel)})
    {
      var p := ch.links[k].channel;
      DropOne(ch, k);
      ch := ch.(links := ch.links[..k] + ch.links[k + 1..]);
      if 'P' !in ch.rec[p].modes && !HasMember(ch.links, p) {
        DeleteChannel(p);
      }
    }

    /** `Remove_Client`, whatever the reason: the membership is unlinked, and a
        channel that is not persistent goes with its last member. */
    method RemoveClient(p: Ptr, c: Ptr) returns (removed: bool)
      requires ValidChans(ch) && p in ch.rec
      modifies this`ch
      ensures ch == Drop(old(ch), {(c, p)}) && ValidChans(ch)
      ensures removed == Joined(old(ch).links, c, p)
    {
      DropValid(ch, {(c, p)});
      var k := FindLink(ch.links, c, p);
      if k == |ch.links| {
        DropNothing(ch, {(c, p)});
        return false;
      }
      UnlinkAt(k);
      return true;
    }

    /** One step of the walk in `Channel_Quit`; the list may lose the entry. */
    method LeaveAt(i: nat, c: Ptr) returns (j: nat)
      requires ValidChans(ch) && i < |ch.list|
      modifies this`ch
      ensures ValidChans(ch) && ch == Drop(old(ch), {(c, old(ch).list[i])})
      ensures var l := old(ch).list;
              (ch.list == l && j == i + 1) || (ch.list == l[..i] + l[i + 1..] && j == i)
    {
      var p := ch.list[i];
      DropListPrefix(ch, c, p, i);
      var n := |ch.list|;
      var removed := RemoveClient(p, c);
      j := if |ch.list| == n then i + 1 else i;
    }

    /** `Channel_Quit`: the client leaves every channel. The list is walked while
        channels are taken out of it. */
    method ChannelQuit(c: Ptr)
      requires ValidChans(ch)
      modifies this`ch
      ensures ch == Drop(old(ch), Memberships(old(ch), {c})) && ValidChans(ch)
    {
      ghost var was := ch;
      ghost var done: set<(Ptr, Ptr)> := {};
      DropNothing(ch, {});
      var i := 0;
      while i < |ch.list|
        invariant 0 <= i <= |ch.list| && ValidChans(ch)
        invariant ch == Drop(was, done)
        invariant forall d :: d in done ==> d.0 == c
        invariant forall j :: 0 <= j < i ==> (c, ch.list[j]) in done
        decreases |ch.list| - i
      {
        ghost var p := ch.list[i];
        i := LeaveAt(i, c);
        DropDrop(was, done, {(c, p)});
        done := done + {(c, p)};
      }
      QuitDone(was, done, c);
    }

    /** `Channel_Part` */
    method Part(c: Ptr, name: string) returns (ok: bool)
      requires ValidChans(ch)
      modifies this`ch
      ensures ValidChans(ch)
      ensures var k := FirstNoCase(Names(old(ch)), name);
              && ok == (k >= 0 && Joined(old(ch).links, c, old(ch).list[k]))
              && ch == if ok then Drop(old(ch), {(c, old(ch).list[k])}) else old(ch)
    {
      var k := Channels.Search(ch, name);
      if k < 0 {
        return false;
      }
      var p := ch.list[k];
      var at := FindLink(ch.links, c, p);
      if at == |ch.links| {
        return false;
      }
      ok := RemoveClient(p, c);
    }

    /** One round of JOIN 0: part, by name, from the channel of a membership. */
    method PartAt(k: nat)
      requires ValidChans(ch) && k < |ch.links|
      modifies this`ch
      ensures ValidChans(ch) && |ch.links| < |old(ch).links|
      ensures ch == Drop(old(ch), {(old(ch).links[k].client, old(ch).links[k].channel)})
    {
      PartsTheLink(ch, k);
      var left := Part(ch.links[k].client, ch.rec[ch.links[k].channel].name);
    }

    /** `part_from_all_channels`, the JOIN 0 command: one PART by name for each
        membership, until there is none. */
    method PartAll(c: Ptr)
      requires ValidChans(ch)
      modifies this`ch
      ensures ch == Drop(old(ch), Memberships(old(ch), {c})) && ValidChans(ch)
      ensures forall l :: l in ch.links <==> l in old(ch).links && l.client != c
    {
      ghost var was := ch;
      ghost var done: set<(Ptr, Ptr)> := {};
      DropNothing(ch, {});
      var k: nat := FirstOf(ch.links, c);
      while k < |ch.links|
        invariant ValidChans(ch) && ch == Drop(was, done)
        invariant forall d :: d in done ==> d.0 == c
        invariant k <= |ch.links| && (k < |ch.links| ==> ch.links[k].client == c)
        invariant k == |ch.links| ==> forall l :: l in ch.links ==> l.client != c
        decreases |ch.links|
      {
        ghost var p := ch.links[k].channel;
        PartAt(k);
        DropDrop(was, done, {(c, p)});
        done := done + {(c, p)};
        k := FirstOf(ch.links, c);
      }
      PartAllDone(was, done, c);
    }

    // ------------------------------------------------------ client side

    /** Unlinking one client: `Destroy_UserOrService` and `Free_Client`. */
    method RemoveSelf(i: nat)
      requires ValidNet(State()) && i < |cl.list|
      modifies this
      ensures State() == Purged(old(State()), {old(cl).list[i]})
    {
      var s := cl.list[i];
      assert s in cl.list;
      KeepOne(cl.list, i);
      var kind := cl.rec[s].kind;
      cl := cl.(list := cl.list[..i] + cl.list[i + 1..]);
      if kind == User || kind == Service {
        ChannelQuit(s);
      } else {
        DropNothing(ch, Memberships(ch, {s}));
      }
      cl := cl.(rec := cl.rec - {s});
    }

    /** `Client_Destroy`: a server takes everything behind it along, one
        recursive call for each child, starting over after each. */
    method Destroy(s: Ptr)
      requires ValidNet(State()) && s in cl.rec && s != THIS
      modifies this
      ensures ValidNet(State()) && State() == Purged(old(State()), Behind(old(cl), s))
      decreases Behind(cl, s)
    {
      ghost var was, gone: set<Ptr> := State(), {};
      PurgedNothing(was);
      var i := Scan(cl, s);
      while cl.list[i] != s
        invariant Progress(was, gone, State(), s) && Scanned(cl, s, i)
        decreases |cl.list|
      {
        ghost var now := State();
        var c := cl.list[i];
        ChildShrinks(was, gone, now, s, c);
        Destroy(c);
        ChildDone(was, gone, now, s, c);
        gone := gone + Behind(now.cl, c);
        i := Scan(cl, s);
      }
      Finished(was, gone, State(), s, i);
      RemoveSelf(i);
      DestroyResult(was, gone, s);
    }

    /** `Init_New_Client` for a local connection (introduced by this server), a
        remote server or a remote user; a local connection has no id yet. */
    method Create(introducer: Ptr, kind: Kind, named: bool, id: string)
      returns (c: Ptr, ghost h: bv32, ghost token: int)
      requires ValidNet(State()) && introducer in cl.rec && cl.rec[introducer].kind == Kind.Server
      requires !named ==> id == []
      modifies this`cl
      ensures ValidNet(State()) && c == old(cl).next
      ensures GoodHash(h, id) && (if kind == Kind.Server then LeastFree(old(cl), token) else token == -1)
      ensures if named then Hash.IsHash(h, Cut(id, CLIENT_ID_LEN)) else h == 0
      ensures cl == NewClient(old(cl), introducer, kind, id, h, token)
    {
      var hash: bv32 := 0;
      if named {
        hash := Hash.Compute(Cut(id, CLIENT_ID_LEN));
      }
      var mytoken := -1;
      if kind == Kind.Server {
        mytoken := FreshToken(cl);
      }
      h, token, c := hash, mytoken, cl.next;
      NewClientValid(cl, introducer, kind, id, hash, mytoken);
      CreateLive(State(), introducer, kind, id, hash, mytoken);
      cl := NewClient(cl, introducer, kind, id, hash, mytoken);
    }

    /** `Channel_Join`: a channel that does not exist is created. */
    method Join(c: Ptr, name: string) returns (ok: bool, ghost h: bv32)
      requires ValidNet(State()) && CanJoin(cl, c)
      modifies this`ch
      ensures ValidNet(State()) && Hash.IsHash(h, name)
      ensures ok == MayJoin(old(ch), c, name) && ch == JoinResult(old(ch), c, name, h)
    {
      var hash := Hash.Compute(name);
      h := hash;
      JoinValid(State(), c, name, hash);
      if !ValidName(name) {
        return false, h;
      }
      var k := Channels.Search(ch, name);
      var p := ch.next;
      if k >= 0 {
        p := ch.list[k];
        var at := FindLink(ch.links, c, p);
        if at < |ch.links| {
          return false, h;
        }
      } else {
        ch := Created(ch, name, hash);
      }
      ch := Added(ch, c, p);
      return true, h;
    }

    /** The mode string of a channel changes, as by `Channel_ModeAdd`,
        `Channel_ModeDel` and `Channel_SetModes`; P stays on an empty channel. */
    method SetModes(p: Ptr, modes: string)
      requires ValidChans(ch) && p in ch.rec && ('P' in modes || HasMember(ch.links, p))
      modifies this`ch
      ensures ValidChans(ch) && ch == Moded(old(ch), p, modes)
    {
      ModedValid(ch, p, modes);
      ch := Moded(ch, p, modes);
    }

    /** `Client_SetID` */
    method SetId(c: Ptr, id: string) returns (ghost h: bv32)
      requires ValidNet(State()) && c in cl.rec
      modifies this`cl
      ensures ValidNet(State()) && Hash.IsHash(h, Cut(id, CLIENT_ID_LEN)) && cl == WithId(old(cl), c, id, h)
    {
      var hash := Hash.Compute(Cut(id, CLIENT_ID_LEN));
      h := hash;
      WithIdValid(cl, c, id, hash);
      RecordLive(State(), WithId(cl, c, id, hash));
      cl := WithId(cl, c, id, hash);
    }

    /** `Client_SetType`: a server stays one, and members stay users or
        services. */
    method SetType(c: Ptr, kind: Kind) returns (ghost token: int)
      requires ValidNet(State()) && MayBecome(State(), c, kind)
      modifies this`cl
      ensures ValidNet(State()) && cl == WithKind(old(cl), c, kind, token)
      ensures kind == Kind.Server ==> LeastFree(old(cl), token)
    {
      var mytoken := -1;
      if kind == Kind.Server {
        mytoken := FreshToken(cl);
      }
      token := mytoken;
      WithKindValid(cl, c, kind, mytoken);
      WithKindLive(State(), c, kind, mytoken);
      cl := WithKind(cl, c, kind, mytoken);
    }

    /** `Client_SetIntroducer(c, c)`, the only way it is used: a direct link. */
    method IntroduceSelf(c: Ptr)
      requires ValidNet(State()) && c in cl.rec
      modifies this`cl
      ensures ValidNet(State()) && cl == SelfIntroduced(old(cl), c)
    {
      SelfIntroducedValid(cl, c);
      RecordLive(State(), SelfIntroduced(cl, c));
      cl := SelfIntroduced(cl, c);
    }

    /** `Channel_Kick` */
    method Kick(k: Kicker, target: Ptr, name: string) returns (kicked: bool)
      requires ValidChans(ch)
      modifies this`ch
      ensures ValidChans(ch)
      ensures var i := FirstNoCase(Names(old(ch)), name);
              && (kicked ==> i >= 0)
              && (i >= 0 ==> Decided(old(ch), k, target, old(ch).list[i], kicked))
              && ch == if kicked then Drop(old(ch), {(target, old(ch).list[i])}) else old(ch)
    {
      var i := Channels.Search(ch, name);
      if i < 0 {
        return false;
      }
      var p := ch.list[i];
      KickDecided(ch, k, target, p);
      if !MayKick(ch, k, target, p) {
        return false;
      }
      kicked := RemoveClient(p, target);
    }
  }

  predicate MayBecome(n: Net, c: Ptr, kind: Kind) {
    && c in n.cl.rec
    && (n.cl.rec[c].kind == Kind.Server ==> kind == Kind.Server)
    && ((exists l :: l in n.ch.links && l.client == c) ==> kind == User || kind == Service)
  }

  lemma WithKindLive(n: Net, c: Ptr, kind: Kind, token: int)
    requires ValidNet(n) && MayBecome(n, c, kind)
    ensures LiveMembers(n.(cl := WithKind(n.cl, c, kind, token)))
  {
    forall l | l in n.ch.links ensures CanJoin(WithKind(n.cl, c, kind, token), l.client) {
      assert CanJoin(n.cl, l.client);
    }
  }

  // ---------------------------------------------------------------- kicks

  /** Who kicks: the connection the command came from and the client it speaks
      for, whether that is an IRC operator, whether OperCanMode is configured,
      and whether the target is protected (user mode q, or a service). */
  datatype Kicker = Kicker(peer: Ptr, peerKind: Kind, origin: Ptr, originKind: Kind,
                           oper: bool, operCanMode: bool, protected: bool)

  function ModesOn(links: seq<Link>, c: Ptr, p: Ptr): string {
    if links == [] then []
    else if links[0].client == c && links[0].channel == p then links[0].modes
    else ModesOn(links[1..], c, p)
  }

  /** The cascade of tests on the modes of kicker and target. */
  predicate CanKick(mine: string, theirs: string) {
    if 'q' in mine then true
    else if 'a' in mine && 'q' !in theirs then true
    else if 'o' in mine && 'q' !in theirs && 'a' !in theirs then true
    else 'h' in mine && 'q' !in theirs && 'a' !in theirs && 'o' !in theirs
  }

  predicate MayKick(ch: Chans, k: Kicker, target: Ptr, p: Ptr) {
    && (k.peerKind != Kind.Server && k.originKind != Service ==> Joined(ch.links, k.origin, p))
    && Joined(ch.links, target, p)
    && (k.peerKind == User ==>
          && (k.oper || !(k.protected || (p in ch.rec && 'Q' in ch.rec[p].modes)))
          && (CanKick(ModesOn(ch.links, k.peer, p), ModesOn(ch.links, target, p)) || (k.oper && k.operCanMode)))
  }

  function Rank(modes: string): nat {
    if 'q' in modes then 4 else if 'a' in modes then 3 else if 'o' in modes then 2
    else if 'h' in modes then 1 else 0
  }

  /** The cascade is a comparison of ranks: a half-operator at least, and no
      lower than the target. */
  lemma KickRank(mine: string, theirs: string)
    ensures CanKick(mine, theirs) <==> Rank(mine) >= 1 && Rank(mine) >= Rank(theirs)
  {}

  /** The member holds this letter on the channel. */
  predicate Holds(links: seq<Link>, c: Ptr, p: Ptr, d: char) {
    exists l :: l in links && l.client == c && l.channel == p && d in l.modes
  }

  /** Owner, admin, operator, half-operator or none. */
  function RankOn(links: seq<Link>, c: Ptr, p: Ptr): nat {
    if Holds(links, c, p, 'q') then 4 else if Holds(links, c, p, 'a') then 3
    else if Holds(links, c, p, 'o') then 2 else if Holds(links, c, p, 'h') then 1 else 0
  }

  /** Who is kicked: a member, by a server or service in any case; by a user who
      speaks for somebody on the channel, if the target is not protected and the
      channel not mode Q, or the user is an IRC operator, and if the user has a
      rank on the channel that is not below the target's, or is an IRC operator
      who may use MODE everywhere. */
  predicate Decided(ch: Chans, k: Kicker, target: Ptr, p: Ptr, kicked: bool) {
    var mine, theirs := RankOn(ch.links, k.peer, p), RankOn(ch.links, target, p);
    kicked <==>
      && Joined(ch.links, target, p)
      && (k.peerKind == Kind.Server || k.originKind == Service || Joined(ch.links, k.origin, p))
      && (k.peerKind == User && !k.oper ==>
            !k.protected && !(p in ch.rec && 'Q' in ch.rec[p].modes) && mine >= 1 && mine >= theirs)
      && (k.peerKind == User && k.oper && !k.operCanMode ==> mine >= 1 && mine >= theirs)
  }

  lemma {:induction false} ModesHold(links: seq<Link>, c: Ptr, p: Ptr, d: char)
    requires OnePerPair(links)
    ensures d in ModesOn(links, c, p) <==> Holds(links, c, p, d)
  {
    if links != [] {
      ModesHold(links[1..], c, p, d);
      assert links == [links[0]] + links[1..];
      if links[0].client == c && links[0].channel == p {
        forall l | l in links[1..] ensures l.client != c || l.channel != p {
          var j :| 0 <= j < |links[1..]| && links[1..][j] == l;
          assert links[j + 1] == l;
        }
      }
    }
  }

  lemma RankModes(ch: Chans, c: Ptr, p: Ptr)
    requires ValidChans(ch)
    ensures Rank(ModesOn(ch.links, c, p)) == RankOn(ch.links, c, p)
  {
    ModesHold(ch.links, c, p, 'q');
    ModesHold(ch.links, c, p, 'a');
    ModesHold(ch.links, c, p, 'o');
    ModesHold(ch.links, c, p, 'h');
  }

  lemma KickDecided(ch: Chans, k: Kicker, target: Ptr, p: Ptr)
    requires ValidChans(ch)
    ensures Decided(ch, k, target, p, MayKick(ch, k, target, p))
  {
    RankModes(ch, k.peer, p);
    RankModes(ch, target, p);
    KickRank(ModesOn(ch.links, k.peer, p), ModesOn(ch.links, target, p));
  }

  /** The usual cases, from the two memberships. */
  lemma KickCases(ch: Chans, k: Kicker, target: Ptr, p: Ptr, mine: string, theirs: string, kicked: bool)
    requires ValidChans(ch) && Decided(ch, k, target, p, kicked) && p in ch.rec
    requires Link(k.peer, p, mine) in ch.links && Link(target, p, theirs) in ch.links && k.origin == k.peer
    ensures k.peerKind == User && !k.oper && !k.protected && 'Q' !in ch.rec[p].modes ==>
              (kicked <==> Rank(mine) >= 1 && Rank(mine) >= Rank(theirs))
    ensures k.peerKind == User && !k.oper && (k.protected || 'Q' in ch.rec[p].modes) ==> !kicked
    ensures k.peerKind == Kind.Server ==> kicked
  {
    LinkRank(ch, Link(k.peer, p, mine));
    LinkRank(ch, Link(target, p, theirs));
  }

  lemma LinkRank(ch: Chans, l: Link)
    requires ValidChans(ch) && l in ch.links
    ensures RankOn(ch.links, l.client, l.channel) == Rank(l.modes)
  {
    forall m | m in ch.links && m.client == l.client && m.channel == l.channel ensures m == l {
      var i :| 0 <= i < |ch.links| && ch.links[i] == l;
      var j :| 0 <= j < |ch.links| && ch.links[j] == m;
    }
  }

  /** The name is valid and the client is not on the channel yet. */
  predicate MayJoin(ch: Chans, c: Ptr, name: string) {
    ValidName(name) && (var k := FirstNoCase(Names(ch), name); k >= 0 ==> !Joined(ch.links, c, ch.list[k]))
  }

  function JoinResult(ch: Chans, c: Ptr, name: string, h: bv32): Chans {
    if !MayJoin(ch, c, name) then ch
    else
      var k := FirstNoCase(Names(ch), name);
      if k >= 0 then Added(ch, c, ch.list[k]) else Added(Created(ch, name, h), c, ch.next)
  }

  /** Joining by name succeeds exactly for a name of at most 50 characters that is
      empty or starts with #, & or + and holds no space, comma, colon or BEL, if
      the client is not on a channel of that name yet. */
  lemma JoinExact(ch: Chans, c: Ptr, name: string)
    requires ValidChans(ch)
    ensures MayJoin(ch, c, name) <==>
            && (name == [] || name[0] in "#&+") && |name| <= 50
            && ' ' !in name && ',' !in name && ':' !in name && '\U{0007}' !in name
            && !exists l :: l in ch.links && l.client == c && SameNoCase(ch.rec[l.channel].name, name)
  {
    var k := FirstNoCase(Names(ch), name);
    if k >= 0 {
      var p := ch.list[k];
      forall l | l in ch.links && SameNoCase(ch.rec[l.channel].name, name) ensures l.channel == p {
        SameTwice(ch.rec[l.channel].name, name, ch.rec[p].name);
      }
    } else {
      forall l | l in ch.links ensures !SameNoCase(ch.rec[l.channel].name, name) {
        NewName(ch, name, l.channel);
      }
    }
  }

  lemma SameTwice(a: string, b: string, c: string)
    requires SameNoCase(a, b) && SameNoCase(c, b)
    ensures SameNoCase(a, c)
  {}

  /** Then the client is on a channel of that name, without modes, and every other
      membership and channel is as it was. */
  lemma JoinMeans(ch: Chans, c: Ptr, name: string, h: bv32) returns (p: Ptr)
    requires ValidChans(ch) && MayJoin(ch, c, name)
    ensures var r := JoinResult(ch, c, name, h);
            && p in r.rec && SameNoCase(r.rec[p].name, name)
            && r.links == [Link(c, p, "")] + ch.links
            && (forall q :: q in r.rec <==> q in ch.rec || q == p)
            && (p !in ch.rec ==> r.rec[p].modes == "")
            && (forall q :: q in ch.rec ==> r.rec[q] == ch.rec[q])
  {
    var k := FirstNoCase(Names(ch), name);
    p := if k >= 0 then ch.list[k] else ch.next;
  }

  lemma JoinValid(n: Net, c: Ptr, name: string, h: bv32)
    requires ValidNet(n) && CanJoin(n.cl, c) && Hash.IsHash(h, name)
    ensures ValidNet(n.(ch := JoinResult(n.ch, c, name, h)))
  {
    if MayJoin(n.ch, c, name) {
      var k := FirstNoCase(Names(n.ch), name);
      if k >= 0 {
        AddedValid(n.ch, c, n.ch.list[k]);
      } else {
        CreatedValid(n.ch, c, name, h);
      }
    }
  }

  lemma CreateLive(n: Net, introducer: Ptr, kind: Kind, id: string, h: bv32, token: int)
    requires ValidNet(n)
    ensures LiveMembers(n.(cl := NewClient(n.cl, introducer, kind, id, h, token)))
  {
    forall l | l in n.ch.links ensures l.client in n.cl.rec { assert CanJoin(n.cl, l.client); }
  }

  /** `i` is the first place in the list with `s` or one of its children. */
  predicate Scanned(t: Table, s: Ptr, i: int) {
    && 0 <= i < |t.list|
    && t.list[i] in t.rec && IsChild(t, t.list[i], s)
    && forall j :: 0 <= j < i ==> t.list[j] in t.rec && !IsChild(t, t.list[j], s)
  }

  /** The walk stops at `s` and its children: only servers introduce. */
  lemma ChildTest(t: Table, s: Ptr, i: nat)
    requires Valid(t) && s in t.rec && i < |t.list|
    ensures var p := t.list[i];
            && p in t.rec
            && ((t.rec[s].kind == Kind.Server && t.rec[p].introducer == s && p != s) || p == s <==> IsChild(t, p, s))
  {
    assert t.list[i] in t.list;
    assert Introduced(t, t.list[i]);
  }

  lemma Position(t: Table, s: Ptr) returns (at: nat)
    requires ListOk(t) && s in t.rec
    ensures at < |t.list| && t.list[at] == s
  {
    at :| at < |t.list| && t.list[at] == s;
  }

  predicate NoChildBefore(t: Table, s: Ptr, i: nat) {
    i <= |t.list| && forall j :: 0 <= j < i ==> t.list[j] in t.rec && !IsChild(t, t.list[j], s)
  }

  /** The walk of `Client_Destroy` from the head to its next action. */
  method Scan(t: Table, s: Ptr) returns (i: int)
    requires Valid(t) && s in t.rec
    ensures Scanned(t, s, i)
  {
    i := 0;
    ghost var at := Position(t, s);
    while true
      invariant 0 <= i <= at && NoChildBefore(t, s, i)
      decreases at - i
    {
      var stop := Stops(t, s, i, at);
      if stop {
        return;
      }
      i := i + 1;
    }
  }

  /** The tests of that walk at one client. */
  method Stops(t: Table, s: Ptr, i: nat, ghost at: nat) returns (stop: bool)
    requires Valid(t) && s in t.rec && i <= at < |t.list| && t.list[at] == s && NoChildBefore(t, s, i)
    ensures if stop then Scanned(t, s, i) else i < at && NoChildBefore(t, s, i + 1)
  {
    ChildTest(t, s, i);
    stop := (t.rec[s].kind == Kind.Server && t.rec[t.list[i]].introducer == s && t.list[i] != s) || t.list[i] == s;
  }

  lemma DestroyResult(was: Net, gone: set<Ptr>, s: Ptr)
    requires ValidNet(was) && s in was.cl.rec && s != THIS && gone + {s} == Behind(was.cl, s)
    ensures Purged(Purged(was, gone), {s}) == Purged(was, Behind(was.cl, s))
    ensures ValidNet(Purged(was, Behind(was.cl, s)))
  {
    PurgedPurged(was, gone, {s});
    BehindClosed(was.cl, s);
    NotBehindThis(was.cl, s);
    PurgedValid(was, Behind(was.cl, s));
  }

  predicate IsChild(t: Table, p: Ptr, s: Ptr)
    requires p in t.rec
  {
    p == s || t.rec[p].introducer == s
  }

  /** Part of what is behind `s` is gone, nothing else. */
  ghost predicate Progress(was: Net, gone: set<Ptr>, now: Net, s: Ptr) {
    && ValidNet(was) && ValidNet(now) && now == Purged(was, gone)
    && s in now.cl.rec && gone <= Behind(was.cl, s) && Closed(was.cl, gone)
  }

  lemma PurgedNothing(n: Net)
    requires ValidNet(n)
    ensures Purged(n, {}) == n
  {
    KeepAll(n.cl.list);
    assert n.cl.rec - {} == n.cl.rec;
    DropNothing(n.ch, Memberships(n.ch, {}));
  }

  /** A child has less behind it than its introducer. */
  lemma ChildShrinks(was: Net, gone: set<Ptr>, now: Net, s: Ptr, c: Ptr)
    requires Progress(was, gone, now, s)
    requires c in now.cl.rec && now.cl.rec[c].introducer == s && c != s
    ensures c != THIS && Behind(now.cl, c) < Behind(was.cl, s)
  {
    assert Introduced(now.cl, c);
    assert Reaches(was.cl, c, s);
    forall p | p in Behind(now.cl, c) ensures p in Behind(was.cl, s) {
      ReachesWithout(was.cl, gone, p, c);
      ReachesThrough(was.cl, p, c, s);
    }
    ReachesOlder(now.cl, s, c);
    assert s in Behind(was.cl, s);
  }

  lemma ChildDone(was: Net, gone: set<Ptr>, now: Net, s: Ptr, c: Ptr)
    requires Progress(was, gone, now, s)
    requires c in now.cl.rec && now.cl.rec[c].introducer == s && c != s
    ensures var b := Behind(now.cl, c);
            Progress(was, gone + b, Purged(now, b), s) && |Keep(now.cl.list, b)| < |now.cl.list|
  {
    var b := Behind(now.cl, c);
    ChildShrinks(was, gone, now, s, c);
    PurgedPurged(was, gone, b);
    BehindClosed(now.cl, c);
    NotBehindThis(now.cl, c);
    PurgedValid(now, b);
    ReachesOlder(now.cl, s, c);
    assert Introduced(now.cl, c);
    KeepShorter(now.cl.list, b, c);
  }

  lemma {:induction false} KeepShorter(s: seq<Ptr>, gone: set<Ptr>, p: Ptr)
    ensures |Keep(s, gone)| <= |s|
    ensures p in s && p in gone ==> |Keep(s, gone)| < |s|
  {
    if s != [] { KeepShorter(s[1..], gone, p); }
  }

  /** The walk met `s` before any child, and the rest of the list is older. */
  lemma NoChildLeft(t: Table, s: Ptr, i: nat, q: Ptr)
    requires Valid(t) && i < |t.list| && t.list[i] == s
    requires forall j :: 0 <= j < i ==> t.list[j] in t.rec && !IsChild(t, t.list[j], s)
    requires q in t.rec && q != s
    ensures t.rec[q].introducer != s
  {
    assert Introduced(t, q);
    var j :| 0 <= j < |t.list| && t.list[j] == q;
    if j > i { assert t.list[i] > t.list[j]; }
  }

  lemma GoneBehind(t: Table, gone: set<Ptr>, s: Ptr, p: Ptr)
    requires Valid(t) && Closed(t, gone) && Valid(Without(t, gone)) && Reaches(t, p, s) && p != s
    requires var u := Without(t, gone); forall q :: q in u.rec && q != s ==> u.rec[q].introducer != s
    ensures p in gone
  {
    if p !in gone {
      ReachesWithout(t, gone, p, s);
      NobodyBehind(Without(t, gone), s, p);
    }
  }

  lemma Finished(was: Net, gone: set<Ptr>, now: Net, s: Ptr, i: nat)
    requires Progress(was, gone, now, s)
    requires Scanned(now.cl, s, i) && now.cl.list[i] == s
    ensures gone + {s} == Behind(was.cl, s)
  {
    var t, u := was.cl, now.cl;
    assert Valid(t) && Valid(u) && u == Without(t, gone) && s in t.rec && gone <= Behind(t, s);
    forall q | q in u.rec && q != s ensures u.rec[q].introducer != s {
      NoChildLeft(u, s, i, q);
    }
    var behind := Behind(t, s);
    forall p | p in behind && p != s ensures p in gone {
      GoneBehind(t, gone, s, p);
    }
    assert Reaches(t, s, s);
    SplitOff(gone, behind, s);
  }

  lemma SplitOff(a: set<Ptr>, b: set<Ptr>, s: Ptr)
    requires a <= b && s in b && forall p :: p in b && p != s ==> p in a
    ensures a + {s} == b
  {}

  /** `Channel_FirstChannelOf` */
  method FirstOf(links: seq<Link>, c: Ptr) returns (k: nat)
    ensures k <= |links| && (k < |links| ==> links[k].client == c)
    ensures k == |links| ==> forall l :: l in links ==> l.client != c
  {
    k := 0;
    while k < |links| && links[k].client != c
      invariant 0 <= k <= |links| && forall j :: 0 <= j < k ==> links[j].client != c
    {
      k := k + 1;
    }
  }

  /** The lookup by name of the picked channel succeeds, yields that channel,
      and parting from it takes one membership away. */
  lemma PartsTheLink(t: Chans, k: nat)
    requires ValidChans(t) && k < |t.links|
    ensures var c, p := t.links[k].client, t.links[k].channel;
            && p in t.rec && Joined(t.links, c, p)
            && (var n := FirstNoCase(Names(t), t.rec[p].name); n >= 0 && t.list[n] == p)
            && |Drop(t, {(c, p)}).links| < |t.links|
  {
    assert t.links[k] in t.links;
    SearchOwnName(t, t.links[k].channel);
    UnlinkOne(t.links, k);
  }

  lemma PartAllDone(was: Chans, done: set<(Ptr, Ptr)>, c: Ptr)
    requires (forall d :: d in done ==> d.0 == c)
    requires forall l :: l in Drop(was, done).links ==> l.client != c
    ensures Drop(was, done) == Drop(was, Memberships(was, {c}))
    ensures forall l :: l in Drop(was, done).links <==> l in was.links && l.client != c
  {
    forall l | l in was.links
      ensures (l.client, l.channel) in done <==> (l.client, l.channel) in Memberships(was, {c})
    {
      if (l.client, l.channel) !in done { assert l in Drop(was, done).links; }
    }
    DropSame(was, done, Memberships(was, {c}));
  }

  /** The walk loses at most the entry it stands on. */
  lemma DropListPrefix(t: Chans, c: Ptr, p: Ptr, i: nat)
    requires ValidChans(t) && i < |t.list| && t.list[i] == p
    ensures var u := Drop(t, {(c, p)});
            u.list == t.list || (u.list == t.list[..i] + t.list[i + 1..] && |u.list| == |t.list| - 1)
  {
    DeadOne(t, KeepLinks(t.links, {(c, p)}), c, p);
    KeepAll(t.list);
    KeepOne(t.list, i);
  }

  lemma QuitDone(was: Chans, done: set<(Ptr, Ptr)>, c: Ptr)
    requires ValidChans(was) && (forall d :: d in done ==> d.0 == c)
    requires var ch := Drop(was, done); ValidChans(ch) && forall j :: 0 <= j < |ch.list| ==> (c, ch.list[j]) in done
    ensures Drop(was, done) == Drop(was, Memberships(was, {c}))
  {
    var ch := Drop(was, done);
    forall l | l in was.links
      ensures (l.client, l.channel) in done <==> (l.client, l.channel) in Memberships(was, {c})
    {
      if l.client == c && (l.client, l.channel) !in done {
        assert l in ch.links;
        assert l.channel in ch.list;
      }
    }
    DropSame(was, done, Memberships(was, {c}));
  }

  /** `Get_Cl2Chan`: position of a membership, or the length of the list. */
  method FindLink(links: seq<Link>, c: Ptr, p: Ptr) returns (k: nat)
    ensures k <= |links| && (k < |links|) == Joined(links, c, p)
    ensures k < |links| ==> links[k].client == c && links[k].channel == p
  {
    k := 0;
    while k < |links| && !(links[k].channel == p && links[k].client == c)
      invariant 0 <= k <= |links|
      invariant forall j :: 0 <= j < k ==> !(links[j].channel == p && links[j].client == c)
    {
      k := k + 1;
    }
    if k < |links| { assert links[k] in links; }
  }

  lemma BehindFirst(s: seq<Ptr>, k: nat)
    requires 0 < k < |s|
    ensures s[..k] + s[k + 1..] == [s[0]] + (s[1..][..k - 1] + s[1..][k..])
  {}

  lemma {:induction false} KeepOne(s: seq<Ptr>, k: nat)
    requires k < |s| && NewestFirst(s)
    ensures Keep(s, {s[k]}) == s[..k] + s[k + 1..]
  {
    if k == 0 {
      KeepNone(s[1..], {s[0]});
      assert s[..0] + s[1..] == s[1..];
    } else {
      var rest := s[1..];
      KeepOne(rest, k - 1);
      assert rest[k - 1] == s[k] && s[0] != s[k];
      BehindFirst(s, k);
    }
  }

  lemma {:induction false} KeepNone(s: seq<Ptr>, gone: set<Ptr>)
    requires forall p :: p in gone ==> p !in s
    ensures Keep(s, gone) == s
  {
    if s != [] {
      assert s[0] in s;
      KeepNone(s[1..], gone);
    }
  }

  /** Only the channel that was left can have died. */
  lemma DeadOne(t: Chans, links: seq<Link>, c: Ptr, p: Ptr)
    requires ValidChans(t) && links == KeepLinks(t.links, {(c, p)})
    ensures Dead(t, links) == if p in t.rec && 'P' !in t.rec[p].modes && !HasMember(links, p) then {p} else {}
  {
    forall q | q in t.rec && q != p && HasMember(t.links, q) ensures HasMember(links, q) {
      var l :| l in t.links && l.channel == q;
      assert l in links;
    }
  }

  lemma DropOne(t: Chans, k: nat)
    requires ValidChans(t) && k < |t.links|
    ensures var c, p := t.links[k].client, t.links[k].channel;
            var links := t.links[..k] + t.links[k + 1..];
            && p in t.rec
            && Drop(t, {(c, p)}) ==
               if 'P' !in t.rec[p].modes && !HasMember(links, p)
               then t.(links := links, list := Keep(t.list, {p}), rec := t.rec - {p})
               else t.(links := links)
  {
    var c, p := t.links[k].client, t.links[k].channel;
    assert t.links[k] in t.links;
    UnlinkOne(t.links, k);
    DeadOne(t, KeepLinks(t.links, {(c, p)}), c, p);
    KeepAll(t.list);
    assert t.rec - {} == t.rec;
  }

  // ------------------------------------------------------------- netsplit

  /** What losing a server means: exactly the clients whose introducer chain
      leads to it are gone, the others keep their order, and nothing refers to
      a client that is gone; for a direct link those are the clients whose next
      hop it is. */
  lemma Netsplit(n: Net, s: Ptr)
    requires ValidNet(n) && s in n.cl.rec && s != THIS
    ensures var m := Purged(n, Behind(n.cl, s));
            && ValidNet(m)
            && (forall p :: p in m.cl.rec <==> p in n.cl.rec && !Reaches(n.cl, p, s))
            && (forall p :: p in m.cl.rec ==> m.cl.rec[p] == n.cl.rec[p] && m.cl.rec[p].introducer in m.cl.rec)
            && (forall l :: l in m.ch.links <==> l in n.ch.links && !Reaches(n.cl, l.client, s))
    ensures n.cl.rec[s].introducer in {s, THIS} ==>
              forall p :: p in n.cl.rec ==>
                (p !in Purged(n, Behind(n.cl, s)).cl.rec <==> NextHop(n.cl, p) == s)
  {
    BehindClosed(n.cl, s);
    NotBehindThis(n.cl, s);
    PurgedValid(n, Behind(n.cl, s));
    var m := Purged(n, Behind(n.cl, s));
    forall p | p in m.cl.rec ensures m.cl.rec[p].introducer in m.cl.rec {
      assert Introduced(m.cl, p);
    }
    NetsplitLinks(n, s);
    if n.cl.rec[s].introducer in {s, THIS} {
      forall p | p in n.cl.rec ensures Reaches(n.cl, p, s) <==> NextHop(n.cl, p) == s {
        BehindLink(n.cl, p, s);
      }
    }
  }

  lemma NetsplitLinks(n: Net, s: Ptr)
    requires ValidNet(n)
    ensures forall l :: l in Purged(n, Behind(n.cl, s)).ch.links <==>
              l in n.ch.links && !Reaches(n.cl, l.client, s)
  {
    var gone := Behind(n.cl, s);
    forall l | l in n.ch.links
      ensures (l.client, l.channel) in Memberships(n.ch, gone) <==> Reaches(n.cl, l.client, s)
    {
      assert CanJoin(n.cl, l.client);
    }
  }

  // ----------------------------------------------------------------- runs

  /** Everything that changes clients, channels or memberships; a kick is given
      by its victim. The hash and the token are those the code computes. */
  datatype Event =
    | Creates(introducer: Ptr, kind: Kind, id: string, h: bv32, token: int)
    | Renames(c: Ptr, id: string, h: bv32)
    | Becomes(c: Ptr, kind: Kind, token: int)
    | Links(c: Ptr)
    | Joins(c: Ptr, name: string, h: bv32)
    | Modes(p: Ptr, modes: string)
    | Leaves(c: Ptr, p: Ptr)
    | LeavesAll(c: Ptr)
    | Dies(c: Ptr)

  ghost predicate Possible(n: Net, e: Event) {
    match e
    case Creates(i, kind, id, h, token) =>
      && i in n.cl.rec && n.cl.rec[i].kind == Kind.Server && GoodHash(h, id)
      && (if kind == Kind.Server then LeastFree(n.cl, token) else token == -1)
    case Renames(c, id, h) => c in n.cl.rec && Hash.IsHash(h, Cut(id, CLIENT_ID_LEN))
    case Becomes(c, kind, token) => MayBecome(n, c, kind) && (kind == Kind.Server ==> LeastFree(n.cl, token))
    case Links(c) => c in n.cl.rec
    case Joins(c, name, h) => CanJoin(n.cl, c) && Hash.IsHash(h, name)
    case Modes(p, modes) => p in n.ch.rec && ('P' in modes || HasMember(n.ch.links, p))
    case Leaves(c, p) => true
    case LeavesAll(c) => true
    case Dies(c) => c in n.cl.rec && c != THIS
  }

  ghost function Happens(n: Net, e: Event): Net
    requires Possible(n, e)
  {
    match e
    case Creates(i, kind, id, h, token) => n.(cl := NewClient(n.cl, i, kind, id, h, token))
    case Renames(c, id, h) => n.(cl := WithId(n.cl, c, id, h))
    case Becomes(c, kind, token) => n.(cl := WithKind(n.cl, c, kind, token))
    case Links(c) => n.(cl := SelfIntroduced(n.cl, c))
    case Joins(c, name, h) => n.(ch := JoinResult(n.ch, c, name, h))
    case Modes(p, modes) => n.(ch := Moded(n.ch, p, modes))
    case Leaves(c, p) => n.(ch := Drop(n.ch, {(c, p)}))
    case LeavesAll(c) => n.(ch := Drop(n.ch, Memberships(n.ch, {c})))
    case Dies(c) => Purged(n, Behind(n.cl, c))
  }

  lemma DropLive(n: Net, pairs: set<(Ptr, Ptr)>)
    requires ValidNet(n)
    ensures ValidNet(n.(ch := Drop(n.ch, pairs)))
  {
    DropValid(n.ch, pairs);
  }

  lemma RecordLive(n: Net, cl: Table)
    requires ValidNet(n) && Valid(cl)
    requires forall p :: p in n.cl.rec ==> p in cl.rec && cl.rec[p].kind == n.cl.rec[p].kind
    ensures ValidNet(n.(cl := cl))
  {
    forall l | l in n.ch.links ensures CanJoin(cl, l.client) { assert CanJoin(n.cl, l.client); }
  }

  lemma HappensValid(n: Net, e: Event)
    requires ValidNet(n) && Possible(n, e)
    ensures ValidNet(Happens(n, e))
  {
    match e
    case Creates(i, kind, id, h, token) =>
      NewClientValid(n.cl, i, kind, id, h, token);
      CreateLive(n, i, kind, id, h, token);
    case Renames(c, id, h) =>
      WithIdValid(n.cl, c, id, h);
      RecordLive(n, WithId(n.cl, c, id, h));
    case Becomes(c, kind, token) =>
      WithKindValid(n.cl, c, kind, token);
      WithKindLive(n, c, kind, token);
    case Links(c) =>
      SelfIntroducedValid(n.cl, c);
      RecordLive(n, SelfIntroduced(n.cl, c));
    case Joins(c, name, h) => JoinValid(n, c, name, h);
    case Modes(p, modes) => ModedValid(n.ch, p, modes);
    case Leaves(c, p) => DropLive(n, {(c, p)});
    case LeavesAll(c) => DropLive(n, Memberships(n.ch, {c}));
    case Dies(c) => Netsplit(n, c);
  }

  /** A run: each event possible where it happens. */
  ghost predicate IsRun(trace: seq<Net>, events: seq<Event>) {
    && |trace| == |events| + 1
    && forall i :: 0 <= i < |events| ==> Possible(trace[i], events[i]) && trace[i + 1] == Happens(trace[i], events[i])
  }

  /** In every state of every run from a valid state: each client is on a channel
      at most once, members are live users or services, channel names are unique
      ignoring case, a channel that is not persistent has a member, server tokens
      are distinct, introducers are live and the hashes are right. */
  lemma {:induction false} RunValid(trace: seq<Net>, events: seq<Event>, i: nat)
    requires IsRun(trace, events) && ValidNet(trace[0]) && i < |trace|
    ensures ValidNet(trace[i])
  {
    if i > 0 {
      RunValid(trace, events, i - 1);
      HappensValid(trace[i - 1], events[i - 1]);
    }
  }
}
