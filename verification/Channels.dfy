/** Channels and the client-to-channel relation: joining, and every way a
    membership ends. */
module Channels {
  import opened Defines
  import opened CStrings
  import opened Directory
  import opened Clients
  import Hash

  datatype Channel = Channel(name: string, hash: bv32, modes: string)

  datatype Link = Link(client: Ptr, channel: Ptr, modes: string)

  /** `list` is My_Channels and `links` is My_Cl2Chan, both from their heads. */
  datatype Chans = Chans(list: seq<Ptr>, rec: map<Ptr, Channel>, links: seq<Link>, next: Ptr)

  /** `Channel_IsValidName`; the empty name passes. */
  predicate ValidName(name: string) {
    && (name == [] || name[0] == '#' || name[0] == '&' || name[0] == '+')
    && |name| < CHANNEL_NAME_LEN
    && forall i :: 0 <= i < |name| ==>
         name[i] != ' ' && name[i] != ',' && name[i] != ':' && name[i] != '\U{0007}'
  }

  predicate Joined(links: seq<Link>, c: Ptr, p: Ptr) {
    exists l :: l in links && l.client == c && l.channel == p
  }

  predicate HasMember(links: seq<Link>, p: Ptr) {
    exists l :: l in links && l.channel == p
  }

  predicate OnePerPair(links: seq<Link>) {
    forall i, j :: 0 <= i < j < |links| ==>
      !(links[i].client == links[j].client && links[i].channel == links[j].channel)
  }

  ghost predicate NameOk(c: Channel) { Hash.IsHash(c.hash, c.name) && |c.name| < CHANNEL_NAME_LEN }

  ghost predicate ValidChans(t: Chans) {
    && NewestFirst(t.list)
    && (forall p :: p in t.rec <==> p in t.list)
    && (forall p :: p in t.rec ==> p < t.next)
    && (forall p :: p in t.rec ==> NameOk(t.rec[p]))
    && (forall p, q :: p in t.rec && q in t.rec && p != q ==> !SameNoCase(t.rec[p].name, t.rec[q].name))
    && (forall l :: l in t.links ==> l.channel in t.rec)
    && OnePerPair(t.links)
    && (forall p :: p in t.rec ==> 'P' in t.rec[p].modes || HasMember(t.links, p))
  }

  // ------------------------------------------------ dropping memberships

  function KeepLinks(links: seq<Link>, pairs: set<(Ptr, Ptr)>): (r: seq<Link>)
    ensures forall l :: l in r <==> l in links && (l.client, l.channel) !in pairs
  {
    if links == [] then []
    else if (links[0].client, links[0].channel) in pairs then KeepLinks(links[1..], pairs)
    else [links[0]] + KeepLinks(links[1..], pairs)
  }

  /** Channels that are not persistent and have lost their last member. */
  function Dead(t: Chans, links: seq<Link>): set<Ptr> {
    set p | p in t.rec && 'P' !in t.rec[p].modes && !HasMember(links, p)
  }

  /** The memberships `pairs` are over. */
  function Drop(t: Chans, pairs: set<(Ptr, Ptr)>): Chans {
    var links := KeepLinks(t.links, pairs);
    var dead := Dead(t, links);
    t.(list := Keep(t.list, dead), rec := t.rec - dead, links := links)
  }

  lemma {:induction false} KeepLinksTwice(links: seq<Link>, a: set<(Ptr, Ptr)>, b: set<(Ptr, Ptr)>)
    ensures KeepLinks(KeepLinks(links, a), b) == KeepLinks(links, a + b)
  {
    if links != [] {
      KeepLinksTwice(links[1..], a, b);
      var l := links[0];
      if (l.client, l.channel) !in a { assert KeepLinks(links, a)[1..] == KeepLinks(links[1..], a); }
    }
  }

  lemma DropDrop(t: Chans, a: set<(Ptr, Ptr)>, b: set<(Ptr, Ptr)>)
    ensures Drop(Drop(t, a), b) == Drop(t, a + b)
  {
    KeepLinksTwice(t.links, a, b);
    var la, lab := KeepLinks(t.links, a), KeepLinks(t.links, a + b);
    var u := Drop(t, a);
    assert Dead(t, la) + Dead(u, lab) == Dead(t, lab);
    KeepKeep(t.list, Dead(t, la), Dead(u, lab));
    assert Drop(u, b).rec == Drop(t, a + b).rec;
  }

  lemma {:induction false} KeepLinksOnePerPair(links: seq<Link>, pairs: set<(Ptr, Ptr)>)
    requires OnePerPair(links)
    ensures OnePerPair(KeepLinks(links, pairs))
  {
    if links != [] {
      KeepLinksOnePerPair(links[1..], pairs);
      var r := KeepLinks(links[1..], pairs);
      forall j | 0 <= j < |r|
        ensures !(links[0].client == r[j].client && links[0].channel == r[j].channel)
      {
        assert r[j] in links[1..];
      }
    }
  }

  lemma DropValid(t: Chans, pairs: set<(Ptr, Ptr)>)
    requires ValidChans(t)
    ensures ValidChans(Drop(t, pairs))
  {
    KeepNewest(t.list, Dead(t, KeepLinks(t.links, pairs)));
    KeepLinksOnePerPair(t.links, pairs);
  }

  /** What is left when memberships end: the other memberships as they were, and
      the channels that are persistent or still have a member. */
  lemma DropExact(t: Chans, pairs: set<(Ptr, Ptr)>)
    ensures var r := Drop(t, pairs);
            && (forall l :: l in r.links <==> l in t.links && (l.client, l.channel) !in pairs)
            && (forall p :: p in r.rec <==>
                  p in t.rec && ('P' in t.rec[p].modes || exists l :: l in r.links && l.channel == p))
            && (forall p :: p in r.rec ==> r.rec[p] == t.rec[p])
  {}

  /** Only pairs that occur matter. */
  lemma {:induction false} KeepLinksSame(links: seq<Link>, a: set<(Ptr, Ptr)>, b: set<(Ptr, Ptr)>)
    requires forall l :: l in links ==> ((l.client, l.channel) in a <==> (l.client, l.channel) in b)
    ensures KeepLinks(links, a) == KeepLinks(links, b)
  {
    if links != [] {
      assert links[0] in links;
      KeepLinksSame(links[1..], a, b);
    }
  }

  lemma {:induction false} KeepLinksAll(links: seq<Link>, pairs: set<(Ptr, Ptr)>)
    requires forall l :: l in links ==> (l.client, l.channel) !in pairs
    ensures KeepLinks(links, pairs) == links
  {
    if links != [] {
      assert links[0] in links;
      KeepLinksAll(links[1..], pairs);
    }
  }

  lemma OnlyOne(links: seq<Link>)
    requires links != [] && OnePerPair(links)
    ensures KeepLinks(links[1..], {(links[0].client, links[0].channel)}) == links[1..]
  {
    var rest := links[1..];
    forall l | l in rest ensures (l.client, l.channel) != (links[0].client, links[0].channel) {
      var j :| 0 <= j < |rest| && rest[j] == l;
      assert links[j + 1] == l;
    }
    KeepLinksAll(rest, {(links[0].client, links[0].channel)});
  }

  /** Removing the one entry of a pair. */
  lemma {:induction false} UnlinkOne(links: seq<Link>, k: nat)
    requires k < |links| && OnePerPair(links)
    ensures links[..k] + links[k + 1..] == KeepLinks(links, {(links[k].client, links[k].channel)})
  {
    if k == 0 {
      OnlyOne(links);
      assert links[..0] + links[1..] == links[1..];
    } else {
      var rest := links[1..];
      assert OnePerPair(rest);
      UnlinkOne(rest, k - 1);
      assert rest[k - 1] == links[k];
      assert (links[0].client, links[0].channel) != (links[k].client, links[k].channel);
      WithoutInRest(links, k);
    }
  }

  lemma WithoutInRest(links: seq<Link>, k: nat)
    requires 0 < k < |links|
    ensures var rest := links[1..];
            links[..k] + links[k + 1..] == [links[0]] + (rest[..k - 1] + rest[k..])
  {
    assert [links[0]] + links[1..][..k - 1] == links[..k];
  }

  // --------------------------------------------------------------- lookup

  function NameOf(t: Chans, p: Ptr): string { if p in t.rec then t.rec[p].name else [] }

  function Names(t: Chans): (r: seq<string>)
    ensures |r| == |t.list| && forall i :: 0 <= i < |t.list| ==> r[i] == NameOf(t, t.list[i])
  {
    seq(|t.list|, i requires 0 <= i < |t.list| => NameOf(t, t.list[i]))
  }

  /** `Channel_Search`: hashes are compared first, the result is that of a plain
      scan ignoring case. */
  method Search(t: Chans, name: string) returns (k: int)
    requires ValidChans(t)
    ensures k == FirstNoCase(Names(t), name)
  {
    var h := Hash.Compute(name);
    var i := 0;
    while i < |t.list|
      invariant 0 <= i <= |t.list|
      invariant forall j :: 0 <= j < i ==> !SameNoCase(t.rec[t.list[j]].name, name)
    {
      var hit := IsHit(t.rec[t.list[i]], name, h);
      if hit {
        FirstIs(Names(t), name, i);
        return i;
      }
      i := i + 1;
    }
    NoneIs(Names(t), name);
    return -1;
  }

  method IsHit(c: Channel, name: string, h: bv32) returns (hit: bool)
    requires NameOk(c) && Hash.IsHash(h, name)
    ensures hit <==> SameNoCase(c.name, name)
  {
    if SameNoCase(c.name, name) { Hash.SameHash(c.name, c.hash, name, h); }
    hit := c.hash == h && SameNoCase(c.name, name);
  }

  /** Looking up the name of a channel yields that very channel. */
  lemma SearchOwnName(t: Chans, p: Ptr)
    requires ValidChans(t) && p in t.rec
    ensures var k := FirstNoCase(Names(t), t.rec[p].name); k >= 0 && t.list[k] == p
  {
    var i :| 0 <= i < |t.list| && t.list[i] == p;
    assert SameNoCase(Names(t)[i], t.rec[p].name);
  }

  // -------------------------------------------------------------- joining

  /** `Channel_Create`: a new channel, with hash `h`, at the head of the list. */
  function Created(t: Chans, name: string, h: bv32): Chans {
    t.(list := [t.next] + t.list,
       rec := t.rec[t.next := Channel(Cut(name, CHANNEL_NAME_LEN), h, [])],
       next := t.next + 1)
  }

  function Added(t: Chans, c: Ptr, p: Ptr): Chans {
    t.(links := [Link(c, p, [])] + t.links)
  }

  lemma {:induction false} AddedMembers(t: Chans, c: Ptr, p: Ptr)
    ensures var links := Added(t, c, p).links;
            && HasMember(links, p)
            && (forall q :: HasMember(t.links, q) ==> HasMember(links, q))
            && (forall l :: l in links ==> l in t.links || l == Link(c, p, []))
  {
    var links := Added(t, c, p).links;
    assert links[0] in links;
    forall q | HasMember(t.links, q) ensures HasMember(links, q) {
      var l :| l in t.links && l.channel == q;
      assert l in links;
    }
  }

  lemma {:induction false} AddedOnePerPair(t: Chans, c: Ptr, p: Ptr)
    requires OnePerPair(t.links) && !Joined(t.links, c, p)
    ensures OnePerPair(Added(t, c, p).links)
  {
    var links := Added(t, c, p).links;
    forall j | 0 < j < |links|
      ensures !(links[0].client == links[j].client && links[0].channel == links[j].channel)
    {
      assert links[j] in t.links;
    }
  }

  lemma AddedValid(t: Chans, c: Ptr, p: Ptr)
    requires ValidChans(t) && p in t.rec && !Joined(t.links, c, p)
    ensures ValidChans(Added(t, c, p))
  {
    AddedMembers(t, c, p);
    AddedOnePerPair(t, c, p);
  }

  lemma NewName(t: Chans, name: string, p: Ptr)
    requires ValidChans(t) && FirstNoCase(Names(t), name) < 0 && p in t.rec
    ensures !SameNoCase(t.rec[p].name, name)
  {
    var i :| 0 <= i < |t.list| && t.list[i] == p;
    assert Names(t)[i] == t.rec[p].name;
  }

  lemma CreatedPair(t: Chans, name: string, h: bv32, p: Ptr, q: Ptr)
    requires ValidChans(t) && |name| < CHANNEL_NAME_LEN && FirstNoCase(Names(t), name) < 0
    requires var v := Created(t, name, h); p in v.rec && q in v.rec && p != q
    ensures var v := Created(t, name, h); !SameNoCase(v.rec[p].name, v.rec[q].name)
  {
    if p == t.next {
      NewName(t, name, q);
    } else if q == t.next {
      NewName(t, name, p);
    }
  }

  lemma CreatedNames(t: Chans, name: string, h: bv32)
    requires ValidChans(t) && |name| < CHANNEL_NAME_LEN && FirstNoCase(Names(t), name) < 0
    ensures var v := Created(t, name, h);
            forall p, q :: p in v.rec && q in v.rec && p != q ==> !SameNoCase(v.rec[p].name, v.rec[q].name)
  {
    var v := Created(t, name, h);
    forall p, q | p in v.rec && q in v.rec && p != q ensures !SameNoCase(v.rec[p].name, v.rec[q].name) {
      CreatedPair(t, name, h, p, q);
    }
  }

  lemma CreatedList(t: Chans, name: string, h: bv32)
    requires ValidChans(t)
    ensures NewestFirst(Created(t, name, h).list)
  {
    forall i | 0 <= i < |t.list| ensures t.list[i] < t.next {
      assert t.list[i] in t.list;
    }
  }

  /** A channel that is new has a name nobody has, and its first member. */
  lemma CreatedValid(t: Chans, c: Ptr, name: string, h: bv32)
    requires ValidChans(t) && ValidName(name) && FirstNoCase(Names(t), name) < 0 && Hash.IsHash(h, name)
    ensures ValidChans(Added(Created(t, name, h), c, t.next))
  {
    CreatedNames(t, name, h);
    CreatedList(t, name, h);
    CreatedRecords(t, name, h);
    CreatedMembers(t, c, name, h);
  }

  lemma CreatedRecords(t: Chans, name: string, h: bv32)
    requires ValidChans(t) && |name| < CHANNEL_NAME_LEN && Hash.IsHash(h, name)
    ensures var v := Created(t, name, h);
            && (forall p :: p in v.rec <==> p in v.list)
            && (forall p :: p in v.rec ==> p < v.next)
            && (forall p :: p in v.rec ==> NameOk(v.rec[p]))
  {}

  lemma CreatedMembers(t: Chans, c: Ptr, name: string, h: bv32)
    requires ValidChans(t)
    ensures var u := Added(Created(t, name, h), c, t.next);
            && (forall l :: l in u.links ==> l.channel in u.rec)
            && OnePerPair(u.links)
            && (forall p :: p in u.rec ==> 'P' in u.rec[p].modes || HasMember(u.links, p))
  {
    var v := Created(t, name, h);
    AddedMembers(v, c, t.next);
    assert forall l :: l in v.links ==> l.channel != t.next;
    AddedOnePerPair(v, c, t.next);
  }

  // ------------------------------------------------------- channel modes

  /** The mode string of a channel is changed. */
  function Moded(t: Chans, p: Ptr, modes: string): Chans
    requires p in t.rec
  {
    t.(rec := t.rec[p := t.rec[p].(modes := modes)])
  }

  /** Exactly a persistent channel may be without members. */
  lemma ModedValid(t: Chans, p: Ptr, modes: string)
    requires ValidChans(t) && p in t.rec
    ensures ValidChans(Moded(t, p, modes)) <==> 'P' in modes || HasMember(t.links, p)
  {
    var u := Moded(t, p, modes);
    assert forall q :: q in t.rec ==> u.rec[q].name == t.rec[q].name && u.rec[q].hash == t.rec[q].hash;
    assert NameOk(u.rec[p]) by { assert NameOk(t.rec[p]); }
  }

  lemma EmptyLosesP(t: Chans, p: Ptr)
    requires ValidChans(t) && p in t.rec && t.links == []
    ensures !ValidChans(Moded(t, p, ""))
  {
    ModedValid(t, p, "");
  }

  lemma LastLeaves(t: Chans, c: Ptr, p: Ptr)
    requires ValidChans(t) && p in t.rec && 'P' in t.rec[p].modes && t.links == [Link(c, p, [])]
    ensures var u := Drop(t, {(c, p)}); ValidChans(u) && p in u.rec && u.links == []
  {
    DropValid(t, {(c, p)});
    KeepLinksNone(t.links, {(c, p)});
  }

  lemma {:induction false} KeepLinksNone(links: seq<Link>, pairs: set<(Ptr, Ptr)>)
    requires forall l :: l in links ==> (l.client, l.channel) in pairs
    ensures KeepLinks(links, pairs) == []
  {
    if links != [] {
      assert links[0] in links;
      KeepLinksNone(links[1..], pairs);
    }
  }

  lemma FirstChannel(c: Ptr, name: string, h: bv32)
    requires ValidName(name) && Hash.IsHash(h, name)
    ensures var made := Added(Created(Chans([], map[], [], 0), name, h), c, 0);
            ValidChans(made) && 0 in made.rec && made.links == [Link(c, 0, [])]
  {
    var none := Chans([], map[], [], 0);
    assert Names(none) == [];
    CreatedValid(none, c, name, h);
  }

  /** A run that ends outside: a channel is made, set persistent and left, and
      then loses P. */
  lemma PersistentEmptied(c: Ptr, name: string, h: bv32)
    requires ValidName(name) && Hash.IsHash(h, name)
    ensures var made := Added(Created(Chans([], map[], [], 0), name, h), c, 0);
            var left := Drop(Moded(made, 0, "P"), {(c, 0)});
            0 in left.rec && ValidChans(left) && !ValidChans(Moded(left, 0, ""))
  {
    var made := Added(Created(Chans([], map[], [], 0), name, h), c, 0);
    FirstChannel(c, name, h);
    ModedValid(made, 0, "P");
    LastLeaves(Moded(made, 0, "P"), c, 0);
    EmptyLosesP(Drop(Moded(made, 0, "P"), {(c, 0)}), 0);
  }
}
