/** The client list: creation, tokens, lookup by hash, the introducer tree and
    what a netsplit leaves of it. */
module Clients {
  import opened Defines
  import opened CStrings
  import opened Directory
  import Hash

  /** A client structure is named by the serial number of its allocation. */
  type Ptr = nat

  /** Unregistered stands for every type before registration is complete. */
  datatype Client = Client(id: string, hash: bv32, kind: Kind, introducer: Ptr, mytoken: int)

  /** `list` is My_Clients from its head; `next` is the next serial number. */
  datatype Table = Table(list: seq<Ptr>, rec: map<Ptr, Client>, next: Ptr)

  /** This_Server is the first structure allocated. */
  const THIS: Ptr := 0

  ghost predicate HashOk(c: Client) {
    Hash.IsHash(c.hash, c.id) || (c.id == [] && c.hash == 0)
  }

  /** New clients are put at the head, so introducers stand behind. */
  predicate NewestFirst(s: seq<Ptr>) {
    forall i, j :: 0 <= i < j < |s| ==> s[i] > s[j]
  }

  /** The list holds each live client once, all allocated before. */
  ghost predicate ListOk(t: Table) {
    && NewestFirst(t.list)
    && (forall p :: p in t.rec <==> p in t.list)
    && (forall p :: p in t.rec ==> p < t.next)
  }

  /** Servers have a token, and no two clients have the same one. */
  ghost predicate TokensOk(t: Table) {
    && (forall p :: p in t.rec && t.rec[p].kind == Server ==> t.rec[p].mytoken >= 1)
    && (forall p, q :: p in t.rec && q in t.rec && p != q && t.rec[p].mytoken > 0 ==>
          t.rec[p].mytoken != t.rec[q].mytoken)
  }

  ghost predicate TreeOk(t: Table) {
    && THIS in t.rec && t.rec[THIS].kind == Server && t.rec[THIS].introducer == THIS
    && (forall p :: p in t.rec ==> Introduced(t, p))
  }

  ghost predicate HashesOk(t: Table) { forall p :: p in t.rec ==> HashOk(t.rec[p]) }

  ghost predicate Valid(t: Table) {
    ListOk(t) && TokensOk(t) && TreeOk(t) && HashesOk(t)
  }

  /** The introducer is the client itself or an older server that is still
      there. */
  predicate Introduced(t: Table, p: Ptr)
    requires p in t.rec
  {
    var q := t.rec[p].introducer;
    q == p || (q < p && q in t.rec && t.rec[q].kind == Server)
  }

  // ------------------------------------------------------------- the tree

  /** The introducer chain of `p` leads to `s`. */
  predicate Reaches(t: Table, p: Ptr, s: Ptr)
    decreases p
  {
    && p in t.rec
    && (p == s || (t.rec[p].introducer < p && Reaches(t, t.rec[p].introducer, s)))
  }

  /** Everything behind `s`, and `s`. */
  function Behind(t: Table, s: Ptr): set<Ptr> {
    set p | p in t.rec && Reaches(t, p, s)
  }

  /** `Client_NextHop` */
  function NextHop(t: Table, p: Ptr): Ptr
    requires p in t.rec
    requires Valid(t)
    decreases p
  {
    var q := t.rec[p].introducer;
    assert Introduced(t, p);
    if q == p || q == THIS then p else NextHop(t, q)
  }

  /** For a direct link the clients behind it are those whose messages leave
      through it. */
  lemma {:induction false} BehindLink(t: Table, p: Ptr, link: Ptr)
    requires Valid(t) && p in t.rec && link in t.rec && link != THIS
    requires t.rec[link].introducer == link || t.rec[link].introducer == THIS
    ensures Reaches(t, p, link) <==> NextHop(t, p) == link
    decreases p
  {
    var q := t.rec[p].introducer;
    assert Introduced(t, p);
    if p == link {
    } else if q == THIS {
      assert !Reaches(t, THIS, link);
    } else if q != p {
      BehindLink(t, q, link);
    }
  }

  // ---------------------------------------------------- removing a subtree

  function Keep(s: seq<Ptr>, gone: set<Ptr>): (r: seq<Ptr>)
    ensures forall p :: p in r <==> p in s && p !in gone
  {
    if s == [] then []
    else if s[0] in gone then Keep(s[1..], gone)
    else [s[0]] + Keep(s[1..], gone)
  }

  function Without(t: Table, gone: set<Ptr>): Table {
    t.(list := Keep(t.list, gone), rec := t.rec - gone)
  }

  lemma {:induction false} KeepKeep(s: seq<Ptr>, a: set<Ptr>, b: set<Ptr>)
    ensures Keep(Keep(s, a), b) == Keep(s, a + b)
  {
    if s != [] {
      KeepKeep(s[1..], a, b);
      if s[0] !in a { assert Keep(s, a)[1..] == Keep(s[1..], a); }
    }
  }

  lemma WithoutWithout(t: Table, a: set<Ptr>, b: set<Ptr>)
    ensures Without(Without(t, a), b) == Without(t, a + b)
  {
    KeepKeep(t.list, a, b);
    assert Without(Without(t, a), b).rec == Without(t, a + b).rec;
  }

  lemma {:induction false} KeepNewest(s: seq<Ptr>, gone: set<Ptr>)
    requires NewestFirst(s)
    ensures NewestFirst(Keep(s, gone))
  {
    if s != [] {
      KeepNewest(s[1..], gone);
      var r := Keep(s[1..], gone);
      forall j | 0 <= j < |r| ensures s[0] > r[j] {
        assert r[j] in s[1..];
      }
    }
  }

  /** Nobody outside was introduced by somebody inside. */
  ghost predicate Closed(t: Table, gone: set<Ptr>) {
    forall p :: p in t.rec && p !in gone ==> t.rec[p].introducer !in gone
  }

  /** Removing a closed set without This_Server keeps the tables valid. */
  lemma WithoutValid(t: Table, gone: set<Ptr>)
    requires Valid(t) && Closed(t, gone) && THIS !in gone
    ensures Valid(Without(t, gone))
  {
    var u := Without(t, gone);
    KeepNewest(t.list, gone);
    forall p | p in u.rec ensures Introduced(u, p) {
      assert Introduced(t, p);
    }
  }

  lemma {:induction false} ReachesUp(t: Table, p: Ptr, s: Ptr)
    requires Valid(t) && p in t.rec && Reaches(t, t.rec[p].introducer, s)
    ensures Reaches(t, p, s)
  {
    assert Introduced(t, p);
  }

  lemma {:induction false} ReachesThrough(t: Table, p: Ptr, c: Ptr, s: Ptr)
    requires Reaches(t, p, c) && Reaches(t, c, s)
    ensures Reaches(t, p, s)
    decreases p
  {
    if p != c { ReachesThrough(t, t.rec[p].introducer, c, s); }
  }

  lemma {:induction false} ReachesOlder(t: Table, p: Ptr, s: Ptr)
    ensures Reaches(t, p, s) ==> s <= p
    decreases p
  {
    if p in t.rec && t.rec[p].introducer < p { ReachesOlder(t, t.rec[p].introducer, s); }
  }

  lemma BehindClosed(t: Table, s: Ptr)
    requires Valid(t) && s in t.rec
    ensures Closed(t, Behind(t, s))
  {
    forall p | p in t.rec && p !in Behind(t, s)
      ensures t.rec[p].introducer !in Behind(t, s)
    {
      if t.rec[p].introducer in Behind(t, s) { ReachesUp(t, p, s); }
    }
  }

  lemma {:induction false} NotBehindThis(t: Table, s: Ptr)
    requires Valid(t) && s in t.rec && s != THIS
    ensures THIS !in Behind(t, s)
  {}

  /** The chain of a survivor is the same as before. */
  lemma {:induction false} ReachesWithout(t: Table, gone: set<Ptr>, p: Ptr, s: Ptr)
    requires Valid(t) && Closed(t, gone) && p in t.rec && p !in gone
    ensures Reaches(Without(t, gone), p, s) <==> Reaches(t, p, s)
    decreases p
  {
    assert Introduced(t, p);
    var q := t.rec[p].introducer;
    if q < p { ReachesWithout(t, gone, q, s); }
  }

  /** Once no other client was introduced by `s`, nobody is behind it. */
  lemma {:induction false} NobodyBehind(t: Table, s: Ptr, p: Ptr)
    requires Valid(t) && p in t.rec && p != s
    requires forall q :: q in t.rec && q != s ==> t.rec[q].introducer != s
    ensures !Reaches(t, p, s)
    decreases p
  {
    assert Introduced(t, p);
    var q := t.rec[p].introducer;
    if q < p { NobodyBehind(t, s, q); }
  }

  // --------------------------------------------------------------- tokens

  predicate InUse(t: Table, token: int) {
    exists i :: 0 <= i < |t.list| && t.list[i] in t.rec && t.rec[t.list[i]].mytoken == token
  }

  /** `Generate_MyToken`: the scan starts over after every hit. */
  method FreshToken(t: Table) returns (token: int)
    requires forall i :: 0 <= i < |t.list| ==> t.list[i] in t.rec
    ensures token >= 2 && !InUse(t, token)
    ensures forall k :: 2 <= k < token ==> InUse(t, k)
    ensures token <= |t.list| + 2
  {
    token := 2;
    var i := 0;
    while i < |t.list|
      invariant 0 <= i <= |t.list| && 2 <= token
      invariant forall k :: 2 <= k < token ==> InUse(t, k)
      invariant forall j :: 0 <= j < i ==> t.rec[t.list[j]].mytoken != token
      invariant token <= |t.list| + 2
      decreases |t.list| + 2 - token, |t.list| - i
    {
      if t.rec[t.list[i]].mytoken == token {
        assert InUse(t, token);
        AtMostOnePerClient(t, token + 1);
        token, i := token + 1, 0;
      } else {
        i := i + 1;
      }
    }
  }

  /** Pigeonhole: the tokens 2 .. n - 1 in use are n - 2 different clients. */
  lemma AtMostOnePerClient(t: Table, n: int)
    requires n >= 2 && forall k :: 2 <= k < n ==> InUse(t, k)
    ensures n - 2 <= |t.list|
  {
    var tokens := Interval(n);
    var used := UsedTokens(t, |t.list|);
    forall k | k in tokens ensures k in used {
      assert InUse(t, k);
      var i :| 0 <= i < |t.list| && t.list[i] in t.rec && t.rec[t.list[i]].mytoken == k;
      UsedHas(t, |t.list|, i);
    }
    SubsetSize(tokens, used);
  }

  function UsedTokens(t: Table, n: nat): (s: set<int>)
    requires n <= |t.list|
    ensures |s| <= n
  {
    if n == 0 then {}
    else
      var p := t.list[n - 1];
      UsedTokens(t, n - 1) + if p in t.rec then {t.rec[p].mytoken} else {}
  }

  lemma {:induction false} UsedHas(t: Table, n: nat, i: nat)
    requires i < n <= |t.list| && t.list[i] in t.rec
    ensures t.rec[t.list[i]].mytoken in UsedTokens(t, n)
  {
    if i < n - 1 { UsedHas(t, n - 1, i); }
  }

  function Interval(n: int): (s: set<int>)
    requires n >= 2
    ensures forall k :: k in s <==> 2 <= k < n
    ensures |s| == n - 2
  {
    if n == 2 then {} else Interval(n - 1) + {n - 1}
  }

  lemma {:induction false} SubsetSize<T>(a: set<T>, b: set<T>)
    requires a <= b
    ensures |a| <= |b|
  {
    if a != {} {
      var x :| x in a;
      SubsetSize(a - {x}, b - {x});
    }
  }

  // --------------------------------------------------------------- lookup

  function IdOf(t: Table, p: Ptr): string { if p in t.rec then t.rec[p].id else [] }

  function Ids(t: Table): (r: seq<string>)
    ensures |r| == |t.list| && forall i :: 0 <= i < |t.list| ==> r[i] == IdOf(t, t.list[i])
  {
    seq(|t.list|, i requires 0 <= i < |t.list| => IdOf(t, t.list[i]))
  }

  /** Has this entry the id? A client that was never given one does not count. */
  predicate Named(c: Client, id: string) { SameNoCase(c.id, id) && (id != [] || c.hash != 0) }

  /** `Client_Search`: the scan compares hashes first, yet finds exactly the
      client a plain scan ignoring case finds; an empty id meets only a client
      that was explicitly given it. */
  method Search(t: Table, nick: string) returns (k: int)
    requires Valid(t)
    ensures SearchId(nick) != [] ==> k == FindClient(Ids(t), nick)
    ensures -1 <= k < |t.list| && (k >= 0 ==> Named(t.rec[t.list[k]], SearchId(nick)))
    ensures forall j :: 0 <= j < (if k < 0 then |t.list| else k) ==> !Named(t.rec[t.list[j]], SearchId(nick))
  {
    var id := SearchId(nick);
    var h := Hash.Compute(id);
    var i := 0;
    while i < |t.list|
      invariant 0 <= i <= |t.list|
      invariant forall j :: 0 <= j < i ==> !Named(t.rec[t.list[j]], id)
    {
      var hit := IsHit(t.rec[t.list[i]], id, h);
      if hit {
        if id != [] { FirstIs(Ids(t), id, i); }
        return i;
      }
      i := i + 1;
    }
    if id != [] { NoneIs(Ids(t), id); }
    return -1;
  }

  /** The test of one list entry: the hash never hides a client with the id. */
  method IsHit(c: Client, id: string, h: bv32) returns (hit: bool)
    requires HashOk(c) && Hash.IsHash(h, id)
    ensures hit <==> Named(c, id)
  {
    if SameNoCase(c.id, id) {
      SameLength(c.id, id);
      if Hash.IsHash(c.hash, c.id) { Hash.SameHash(c.id, c.hash, id, h); }
      if id == [] { Hash.EmptyHash(h); }
    }
    hit := c.hash == h && SameNoCase(c.id, id);
  }

  lemma FirstIs(names: seq<string>, key: string, i: nat)
    requires i < |names| && SameNoCase(names[i], key)
    requires forall j :: 0 <= j < i ==> !SameNoCase(names[j], key)
    ensures FirstNoCase(names, key) == i
  {}

  lemma NoneIs(names: seq<string>, key: string)
    requires forall j :: 0 <= j < |names| ==> !SameNoCase(names[j], key)
    ensures FirstNoCase(names, key) == -1
  {}

  // ------------------------------------------------------ client life cycle

  /** `token` is the least one from 2 on that no client has. */
  ghost predicate LeastFree(t: Table, token: int) {
    token >= 2 && !InUse(t, token) && forall k :: 2 <= k < token ==> InUse(t, k)
  }

  ghost predicate GoodHash(h: bv32, id: string) {
    HashOk(Client(Cut(id, CLIENT_ID_LEN), h, Unregistered, 0, 0))
  }

  /** `Init_New_Client`: a new structure at the head of the list. */
  function NewClient(t: Table, introducer: Ptr, kind: Kind, id: string, h: bv32, token: int): Table {
    t.(list := [t.next] + t.list,
       rec := t.rec[t.next := Client(Cut(id, CLIENT_ID_LEN), h, kind, introducer, token)],
       next := t.next + 1)
  }

  function WithId(t: Table, c: Ptr, id: string, h: bv32): Table
    requires c in t.rec
  {
    t.(rec := t.rec[c := t.rec[c].(id := Cut(id, CLIENT_ID_LEN), hash := h)])
  }

  /** `Client_SetType`: who becomes a server gets a token. */
  function WithKind(t: Table, c: Ptr, kind: Kind, token: int): Table
    requires c in t.rec
  {
    t.(rec := t.rec[c := t.rec[c].(kind := kind, mytoken := if kind == Server then token else t.rec[c].mytoken)])
  }

  function SelfIntroduced(t: Table, c: Ptr): Table
    requires c in t.rec
  {
    t.(rec := t.rec[c := t.rec[c].(introducer := c)])
  }

  /** A new client stands at the head of the list with what it was created with;
      all others are as they were. */
  lemma NewClientMeans(t: Table, introducer: Ptr, kind: Kind, id: string, h: bv32, token: int)
    requires Valid(t)
    ensures var r := NewClient(t, introducer, kind, id, h, token); var c := t.next;
            && c !in t.rec && r.list == [c] + t.list && r.rec.Keys == t.rec.Keys + {c}
            && (forall p :: p in t.rec ==> r.rec[p] == t.rec[p])
            && r.rec[c] == Client(if |id| > 63 then id[..63] else id, h, kind, introducer, token)
  {}

  /** The setters change one field, or two, of one client. */
  lemma SettersMean(t: Table, c: Ptr, id: string, h: bv32, kind: Kind, token: int)
    requires c in t.rec
    ensures var r := WithId(t, c, id, h);
            Only(t, r, c) && r.rec[c] == t.rec[c].(id := if |id| > 63 then id[..63] else id, hash := h)
    ensures var r := WithKind(t, c, kind, token);
            Only(t, r, c) && r.rec[c] ==
            if kind == Server then t.rec[c].(kind := kind, mytoken := token) else t.rec[c].(kind := kind)
    ensures var r := SelfIntroduced(t, c);
            Only(t, r, c) && r.rec[c] == t.rec[c].(introducer := c)
  {}

  /** Nothing but the record of c differs. */
  predicate Only(t: Table, r: Table, c: Ptr) {
    r.list == t.list && r.next == t.next && r.rec.Keys == t.rec.Keys
    && forall p :: p in t.rec && p in r.rec && p != c ==> r.rec[p] == t.rec[p]
  }

  lemma TokenIsNew(t: Table, token: int, p: Ptr)
    requires Valid(t) && !InUse(t, token) && p in t.rec
    ensures t.rec[p].mytoken != token
  {
    var i :| 0 <= i < |t.list| && t.list[i] == p;
  }

  lemma NewClientTokens(t: Table, introducer: Ptr, kind: Kind, id: string, h: bv32, token: int)
    requires Valid(t)
    requires if kind == Server then LeastFree(t, token) else token == -1
    ensures TokensOk(NewClient(t, introducer, kind, id, h, token))
  {
    if kind == Server {
      forall p | p in t.rec ensures t.rec[p].mytoken != token { TokenIsNew(t, token, p); }
    }
  }

  lemma NewClientList(t: Table, introducer: Ptr, kind: Kind, id: string, h: bv32, token: int)
    requires ListOk(t)
    ensures ListOk(NewClient(t, introducer, kind, id, h, token))
  {
    forall i | 0 <= i < |t.list| ensures t.list[i] < t.next { assert t.list[i] in t.list; }
  }

  lemma NewClientTree(t: Table, introducer: Ptr, kind: Kind, id: string, h: bv32, token: int)
    requires ListOk(t) && TreeOk(t) && introducer in t.rec && t.rec[introducer].kind == Server
    ensures TreeOk(NewClient(t, introducer, kind, id, h, token))
  {
    var u := NewClient(t, introducer, kind, id, h, token);
    forall p | p in u.rec ensures Introduced(u, p) {
      if p in t.rec { assert Introduced(t, p); }
    }
  }

  lemma NewClientValid(t: Table, introducer: Ptr, kind: Kind, id: string, h: bv32, token: int)
    requires Valid(t) && introducer in t.rec && t.rec[introducer].kind == Server && GoodHash(h, id)
    requires if kind == Server then LeastFree(t, token) else token == -1
    ensures Valid(NewClient(t, introducer, kind, id, h, token))
  {
    NewClientTokens(t, introducer, kind, id, h, token);
    NewClientList(t, introducer, kind, id, h, token);
    NewClientTree(t, introducer, kind, id, h, token);
  }

  /** Changing a record without its introducer, and never a server's type. */
  lemma UpdateTree(t: Table, c: Ptr, r: Client)
    requires TreeOk(t) && c in t.rec && (r.introducer == t.rec[c].introducer || r.introducer == c)
    requires t.rec[c].kind == Server ==> r.kind == Server
    ensures TreeOk(t.(rec := t.rec[c := r]))
  {
    var u := t.(rec := t.rec[c := r]);
    forall p | p in u.rec ensures Introduced(u, p) { assert Introduced(t, p); }
    assert Introduced(t, THIS);
  }

  /** Changing a record without its kind and token. */
  lemma UpdateTokens(t: Table, c: Ptr, r: Client)
    requires TokensOk(t) && c in t.rec && r.kind == t.rec[c].kind && r.mytoken == t.rec[c].mytoken
    ensures TokensOk(t.(rec := t.rec[c := r]))
  {}

  lemma UpdateHashes(t: Table, c: Ptr, r: Client)
    requires HashesOk(t) && c in t.rec && HashOk(r)
    ensures HashesOk(t.(rec := t.rec[c := r]))
  {}

  lemma WithIdValid(t: Table, c: Ptr, id: string, h: bv32)
    requires Valid(t) && c in t.rec && GoodHash(h, id)
    ensures Valid(WithId(t, c, id, h))
  {
    var r := t.rec[c].(id := Cut(id, CLIENT_ID_LEN), hash := h);
    UpdateTree(t, c, r);
    UpdateTokens(t, c, r);
    UpdateHashes(t, c, r);
  }

  lemma WithKindTokens(t: Table, c: Ptr, kind: Kind, token: int)
    requires Valid(t) && c in t.rec && (kind == Server ==> LeastFree(t, token))
    ensures TokensOk(WithKind(t, c, kind, token))
  {
    if kind == Server {
      forall p | p in t.rec ensures t.rec[p].mytoken != token { TokenIsNew(t, token, p); }
    }
  }

  lemma WithKindValid(t: Table, c: Ptr, kind: Kind, token: int)
    requires Valid(t) && c in t.rec && (t.rec[c].kind == Server ==> kind == Server)
    requires kind == Server ==> LeastFree(t, token)
    ensures Valid(WithKind(t, c, kind, token))
  {
    WithKindTokens(t, c, kind, token);
    UpdateTree(t, c, WithKind(t, c, kind, token).rec[c]);
  }

  lemma SelfIntroducedValid(t: Table, c: Ptr)
    requires Valid(t) && c in t.rec
    ensures Valid(SelfIntroduced(t, c))
  {
    UpdateTree(t, c, t.rec[c].(introducer := c));
  }
}
