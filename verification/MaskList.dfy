/** Mask lists (`lists.c`): singly linked, newest entry first, with one-shot and
    expiring entries. */
module MaskList {
  import opened Defines
  import opened CStrings
  import opened Masks
  import Match

  datatype Reason = NoReason | Text(text: string)

  /** A list element. `until` is 0 for no limit. */
  datatype Entry = Entry(mask: string, reason: Reason, until: int, once: bool)

  // ----------------------------------------------------------- on values

  /** The position of the first entry with this mask, |s| if there is none. */
  function FindMask(s: seq<Entry>, mask: string): (k: nat)
    ensures k <= |s|
    ensures k < |s| ==> SameNoCase(s[k].mask, mask)
    ensures forall i :: 0 <= i < k ==> !SameNoCase(s[i].mask, mask)
  {
    if s == [] || SameNoCase(s[0].mask, mask) then 0 else 1 + FindMask(s[1..], mask)
  }

  /** What `Lists_Add` leaves: a known mask gets the new limit and reason. */
  function Added(s: seq<Entry>, mask: string, until: int, reason: Reason, once: bool): (r: seq<Entry>) {
    var k := FindMask(s, mask);
    if k < |s| then
      s[k := s[k].(until := until, reason := if reason.Text? then reason else s[k].reason)]
    else [Entry(Cut(mask, MASK_LEN), reason, until, once)] + s
  }

  /** What `Lists_Del` and `Lists_Expire` keep. */
  datatype Test = OtherMask(mask: string) | NotExpired(now: int)

  predicate Keeps(t: Test, e: Entry) {
    match t
    case OtherMask(mask) => !SameNoCase(e.mask, mask)
    case NotExpired(now) => !(0 < e.until < now)
  }

  /** The entries that pass the test, in order. */
  function Kept(s: seq<Entry>, keep: Test): seq<Entry> {
    if s == [] then [] else (if Keeps(keep, s[0]) then [s[0]] else []) + Kept(s[1..], keep)
  }

  lemma {:induction false} KeptHas(s: seq<Entry>, keep: Test, e: Entry)
    ensures e in Kept(s, keep) <==> e in s && Keeps(keep, e)
  {
    if s != [] {
      KeptHas(s[1..], keep, e);
      assert e in s <==> e == s[0] || e in s[1..];
    }
  }

  /** What stays in a list: entries without a limit and those whose limit is not
      over yet; entries with another mask. */
  lemma KeptMeans(s: seq<Entry>, e: Entry, now: int, mask: string)
    ensures e in Kept(s, NotExpired(now)) <==> e in s && (e.until <= 0 || e.until >= now)
    ensures e in Kept(s, OtherMask(mask)) <==> e in s && Lower(e.mask) != Lower(mask)
  {
    KeptHas(s, NotExpired(now), e);
    KeptHas(s, OtherMask(mask), e);
  }

  /** After an addition the mask is listed with the new limit, and with the new
      reason if one was given; entries with other masks stay as they were. */
  lemma AddedMeans(s: seq<Entry>, mask: string, until: int, reason: Reason, once: bool)
    requires Unique(s) && |mask| < 128
    ensures var r := Added(s, mask, until, reason, once);
            && (exists e :: e in r && SameNoCase(e.mask, mask) && e.until == until && (reason.Text? ==> e.reason == reason))
            && (forall e: Entry :: !SameNoCase(e.mask, mask) ==> (e in r <==> e in s))
            && |r| == |s| + (if exists e :: e in s && SameNoCase(e.mask, mask) then 0 else 1)
  {
    var r := Added(s, mask, until, reason, once);
    var k := FindMask(s, mask);
    if k < |s| {
      assert r[k] in r && s[k] in s;
      forall e: Entry | !SameNoCase(e.mask, mask) ensures e in r <==> e in s {
        if e in s { var i :| 0 <= i < |s| && s[i] == e; assert r[i] == e; }
        if e in r { var i :| 0 <= i < |r| && r[i] == e; assert s[i] == e; }
      }
    } else {
      assert r[0] in r && SameNoCase(r[0].mask, mask);
      forall e | e in s ensures !SameNoCase(e.mask, mask) {
        var i :| 0 <= i < |s| && s[i] == e;
      }
    }
  }

  /** The list has been filtered in place up to k. */
  ghost predicate Partly(c: seq<Entry>, k: nat, keep: Test, goal: seq<Entry>) {
    k <= |c| && c[..k] + Kept(c[k..], keep) == goal
  }

  lemma PartlyStart(c: seq<Entry>, keep: Test)
    ensures Partly(c, 0, keep, Kept(c, keep))
  {
    assert c[0..] == c && c[..0] == [];
  }

  lemma PartlyKeep(c: seq<Entry>, k: nat, keep: Test, goal: seq<Entry>)
    requires Partly(c, k, keep, goal) && k < |c| && Keeps(keep, c[k])
    ensures Partly(c, k + 1, keep, goal)
  {
    var rest := Kept(c[k + 1..], keep);
    assert c[k..][1..] == c[k + 1..];
    assert c[..k + 1] == c[..k] + [c[k]];
    assert c[..k] + ([c[k]] + rest) == c[..k] + [c[k]] + rest;
  }

  lemma PartlyDrop(c: seq<Entry>, k: nat, keep: Test, goal: seq<Entry>)
    requires Partly(c, k, keep, goal) && k < |c| && !Keeps(keep, c[k])
    ensures Partly(Without(c, k), k, keep, goal)
  {
    var w := Without(c, k);
    assert c[k..][1..] == c[k + 1..];
    assert w[..k] == c[..k] && w[k..] == c[k + 1..];
    assert [] + Kept(c[k + 1..], keep) == Kept(c[k + 1..], keep);
  }

  lemma PartlyEnd(c: seq<Entry>, keep: Test, goal: seq<Entry>)
    requires Partly(c, |c|, keep, goal)
    ensures c == goal
  {
    assert c[|c|..] == [] && c[..|c|] == c;
  }

  /** Whether the entry lists a client with these masks. */
  ghost predicate Lists(e: Entry, plain: string, cloaked: string) {
    Match.AcceptsNoCase(e.mask, cloaked) || Match.AcceptsNoCase(e.mask, plain)
  }

  /** The textbook meaning of that: the mask is a glob of one of the two. */
  ghost predicate Covers(mask: string, plain: string, cloaked: string) {
    || Match.GlobNoCase(Match.Fitting(mask), Match.Fitting(plain))
    || Match.GlobNoCase(Match.Fitting(mask), Match.Fitting(cloaked))
  }

  /** The mask has neither of the two forms that the matcher misses. */
  predicate Regular(mask: string) {
    !Match.Trapped(Match.Fitting(mask)) && !Match.ClosingStars(Match.Fitting(mask))
  }

  /** An entry lists only clients of its mask, and all of them if the mask is
      regular. */
  lemma ListsCovers(e: Entry, plain: string, cloaked: string)
    ensures Lists(e, plain, cloaked) ==> Covers(e.mask, plain, cloaked)
    ensures Regular(e.mask) ==> (Lists(e, plain, cloaked) <==> Covers(e.mask, plain, cloaked))
  {
    Match.NoCaseSound(e.mask, plain);
    Match.NoCaseSound(e.mask, cloaked);
  }

  ghost function FirstMatch(s: seq<Entry>, plain: string, cloaked: string): (k: nat)
    ensures k <= |s|
    ensures k < |s| ==> Lists(s[k], plain, cloaked)
    ensures forall i :: 0 <= i < k ==> !Lists(s[i], plain, cloaked)
  {
    if s == [] || Lists(s[0], plain, cloaked) then 0 else 1 + FirstMatch(s[1..], plain, cloaked)
  }

  /** The answer to whether a client is listed: some entry lists it; then some
      mask covers it, and if all masks are regular that is the same. */
  ghost predicate Answer(s: seq<Entry>, plain: string, cloaked: string, listed: bool) {
    var covered := exists i :: 0 <= i < |s| && Covers(s[i].mask, plain, cloaked);
    && (listed <==> exists i :: 0 <= i < |s| && Lists(s[i], plain, cloaked))
    && (listed ==> covered)
    && ((forall i :: 0 <= i < |s| ==> Regular(s[i].mask)) ==> (listed <==> covered))
  }

  lemma AnswerIs(s: seq<Entry>, plain: string, cloaked: string)
    ensures Answer(s, plain, cloaked, FirstMatch(s, plain, cloaked) < |s|)
  {
    forall i | 0 <= i < |s|
      ensures Lists(s[i], plain, cloaked) ==> Covers(s[i].mask, plain, cloaked)
      ensures Regular(s[i].mask) ==> (Lists(s[i], plain, cloaked) <==> Covers(s[i].mask, plain, cloaked))
    {
      ListsCovers(s[i], plain, cloaked);
    }
  }

  function Without(s: seq<Entry>, k: nat): seq<Entry>
    requires k < |s|
  {
    s[..k] + s[k + 1..]
  }

  /** What `Lists_CheckReason` leaves: a one-shot entry is used up. */
  ghost function Checked(s: seq<Entry>, plain: string, cloaked: string): seq<Entry> {
    var k := FirstMatch(s, plain, cloaked);
    if k < |s| && s[k].once then Without(s, k) else s
  }

  /** A check takes away nothing but the first entry that lists the client, and
      that exactly if it is for one use. */
  lemma CheckedMeans(s: seq<Entry>, plain: string, cloaked: string, k: nat)
    requires k < |s| && Lists(s[k], plain, cloaked) && forall i :: 0 <= i < k ==> !Lists(s[i], plain, cloaked)
    ensures Checked(s, plain, cloaked) == if s[k].once then s[..k] + s[k + 1..] else s
  {
    assert FirstMatch(s, plain, cloaked) == k;
  }

  // ------------------------------------------------------ no duplicates

  /** No two entries have masks equal ignoring case. */
  predicate Unique(s: seq<Entry>) {
    forall i, j :: 0 <= i < j < |s| ==> !SameNoCase(s[i].mask, s[j].mask)
  }

  /** An added mask keeps the list free of duplicates exactly when it is known
      already or its stored form is new. */
  lemma AddUnique(s: seq<Entry>, mask: string, until: int, reason: Reason, once: bool)
    requires Unique(s)
    ensures Unique(Added(s, mask, until, reason, once)) <==>
            FindMask(s, mask) < |s| || FindMask(s, Cut(mask, MASK_LEN)) == |s|
  {
    var k, c := FindMask(s, mask), FindMask(s, Cut(mask, MASK_LEN));
    var r := Added(s, mask, until, reason, once);
    if k < |s| {
      assert forall i :: 0 <= i < |s| ==> r[i].mask == s[i].mask;
    } else {
      assert forall i :: 0 < i < |r| ==> r[i] == s[i - 1];
      if c < |s| { assert SameNoCase(r[0].mask, r[c + 1].mask); }
    }
  }

  /** A mask as `Lists_MakeMask` writes it is stored whole. */
  lemma AddShort(s: seq<Entry>, mask: string, until: int, reason: Reason, once: bool)
    requires Unique(s) && |mask| < MASK_LEN
    ensures Unique(Added(s, mask, until, reason, once))
  {
    AddUnique(s, mask, until, reason, once);
  }

  /** A mask too long for the buffer is compared whole but stored cut. */
  lemma AddLongTwice(mask: string)
    requires |mask| >= MASK_LEN
    ensures var s := Added([], mask, 0, NoReason, false);
            Unique(s) && !Unique(Added(s, mask, 0, NoReason, false))
  {
    var s := Added([], mask, 0, NoReason, false);
    assert |Lower(s[0].mask)| != |Lower(mask)|;
    AddUnique(s, mask, 0, NoReason, false);
  }

  lemma {:induction false} KeptUnique(s: seq<Entry>, keep: Test)
    requires Unique(s)
    ensures Unique(Kept(s, keep))
  {
    if s != [] {
      var rest := Kept(s[1..], keep);
      KeptUnique(s[1..], keep);
      forall j | 0 <= j < |rest| ensures !SameNoCase(s[0].mask, rest[j].mask) {
        KeptHas(s[1..], keep, rest[j]);
        var i :| 0 <= i < |s[1..]| && s[1..][i] == rest[j];
        assert s[i + 1] == rest[j];
      }
    }
  }

  lemma CheckedUnique(s: seq<Entry>, plain: string, cloaked: string)
    requires Unique(s)
    ensures Unique(Checked(s, plain, cloaked))
  {
    var k := FirstMatch(s, plain, cloaked);
    var r := Checked(s, plain, cloaked);
    assert forall i :: 0 <= i < |r| ==> r[i] == if |r| == |s| || i < k then s[i] else s[i + 1];
  }

  /** GETID_LEN */
  const GETID_LEN := CLIENT_NICK_LEN - 1 + 1 + CLIENT_USER_LEN - 1 + 1 + CLIENT_HOST_LEN - 1 + 1

  /** `Client_Mask` and `Client_MaskCloaked` of a user. */
  function ClientMask(id: string, user: string, host: string): (m: string)
    ensures |m| < MASK_LEN
  {
    Cut(id + "!" + user + "@" + host, GETID_LEN)
  }

  /** What the program does with a list: masks are made of patterns by
      `Class_AddMask` and `Add_To_List`, or of a client by `IRC_INVITE`. */
  datatype Op =
    | Add(pattern: string, until: int, reason: Reason, once: bool)
    | Invite(id: string, user: string, host: string, until: int, reason: Reason)
    | Del(pattern: string)
    | Check(plain: string, cloaked: string)
    | Expire(now: int)

  ghost function Step(s: seq<Entry>, op: Op): seq<Entry> {
    match op
    case Add(pattern, until, reason, once) => Added(s, MakeMask(pattern), until, reason, once)
    case Invite(id, user, host, until, reason) => Added(s, ClientMask(id, user, host), until, reason, true)
    case Del(pattern) => Kept(s, OtherMask(MakeMask(pattern)))
    case Check(plain, cloaked) => Checked(s, plain, cloaked)
    case Expire(now) => Kept(s, NotExpired(now))
  }

  ghost function Run(ops: seq<Op>): seq<Entry> {
    if ops == [] then [] else Step(Run(ops[..|ops| - 1]), ops[|ops| - 1])
  }

  /** Over every run the list has no duplicates: no mask that the program adds is
      too long for its buffer. */
  lemma {:induction false} RunUnique(ops: seq<Op>)
    ensures Unique(Run(ops))
  {
    if ops != [] {
      var s, op := Run(ops[..|ops| - 1]), ops[|ops| - 1];
      RunUnique(ops[..|ops| - 1]);
      match op
      case Add(pattern, until, reason, once) => AddShort(s, MakeMask(pattern), until, reason, once);
      case Invite(id, user, host, until, reason) => AddShort(s, ClientMask(id, user, host), until, reason, true);
      case Del(pattern) => KeptUnique(s, OtherMask(MakeMask(pattern)));
      case Check(plain, cloaked) => CheckedUnique(s, plain, cloaked);
      case Expire(now) => KeptUnique(s, NotExpired(now));
    }
  }

  // ------------------------------------------------- as MODE sees the list

  function MasksOf(s: seq<Entry>): (r: seq<string>)
    ensures |r| == |s| && forall i :: 0 <= i < |s| ==> r[i] == s[i].mask
  {
    seq(|s|, i requires 0 <= i < |s| => s[i].mask)
  }

  lemma DupeIsListed(s: seq<Entry>, mask: string)
    ensures FindMask(s, mask) < |s| <==> Listed(MasksOf(s), mask)
  {
    var k := FindMask(s, mask);
    if k < |s| { assert SameNoCase(MasksOf(s)[k], mask); }
  }

  lemma {:induction false} DelIsUnlisted(s: seq<Entry>, mask: string)
    ensures MasksOf(Kept(s, OtherMask(mask))) == Unlisted(MasksOf(s), mask)
  {
    if s != [] {
      DelIsUnlisted(s[1..], mask);
      assert MasksOf(s)[1..] == MasksOf(s[1..]);
    }
  }

  // --------------------------------------------------------- linked list

  class Node {
    var next: Node?
    const mask: string
    var reason: Reason
    var until: int
    const once: bool

    constructor (mask: string, reason: Reason, until: int, once: bool, next: Node?)
      ensures this.next == next && Value() == Entry(mask, reason, until, once)
    {
      this.mask, this.reason, this.until, this.once, this.next := mask, reason, until, once, next;
    }

    function Value(): Entry
      reads this
    {
      Entry(mask, reason, until, once)
    }
  }

  /** A sequence of distinct elements without the one at k. */
  lemma Cutting<T>(s: seq<T>, k: nat)
    requires k < |s| && forall i, j :: 0 <= i < j < |s| ==> s[i] != s[j]
    ensures var r := s[..k] + s[k + 1..];
            && |r| == |s| - 1
            && (forall i :: 0 <= i < |r| ==> r[i] == s[if i < k then i else i + 1])
            && (forall i, j :: 0 <= i < j < |r| ==> r[i] != r[j])
            && (forall x :: x in r ==> x in s)
  {}

  class List {
    var first: Node?
    /** The nodes in list order, and what they hold. */
    ghost var spine: seq<Node>
    ghost var contents: seq<Entry>

    /** The node at position k, null behind the end. */
    ghost function At(k: nat): Node?
      reads this
    {
      if k < |spine| then spine[k] else null
    }

    /** The links lead through the distinct nodes of the spine to null: there is
        no cycle. */
    ghost predicate Valid()
      reads this, spine
    {
      && |contents| == |spine|
      && (forall i, j :: 0 <= i < j < |spine| ==> spine[i] != spine[j])
      && first == At(0)
      && (forall i :: 0 <= i < |spine| ==> spine[i].next == At(i + 1) && spine[i].Value() == contents[i])
    }

    /** `e` is the entry at position k and `last` the one before it. */
    ghost predicate Cursor(k: nat, last: Node?, e: Node?)
      reads this
    {
      k <= |spine| && |contents| == |spine| && e == At(k) && last == if k == 0 then null else spine[k - 1]
    }

    /** What the links say at the cursor. */
    lemma AtCursor(k: nat, last: Node?, e: Node)
      requires Valid() && Cursor(k, last, e)
      ensures k < |spine| && e == spine[k] && e.Value() == contents[k] && Cursor(k + 1, e, e.next)
      ensures last == if k == 0 then null else spine[k - 1]
      ensures last == null || last in spine
    {}

    constructor ()
      ensures Valid() && contents == [] && spine == []
    {
      first, spine, contents := null, [], [];
    }

    /** `Lists_CheckDupeMask` */
    method CheckDupeMask(mask: string) returns (e: Node?, ghost k: nat)
      requires Valid()
      ensures k == FindMask(contents, mask) && e == At(k)
    {
      e, k := first, 0;
      while e != null
        invariant k <= |spine| && e == At(k)
        invariant k + FindMask(contents[k..], mask) == FindMask(contents, mask)
        decreases |spine| - k
      {
        if SameNoCase(e.mask, mask) {
          return;
        }
        assert contents[k..][1..] == contents[k + 1..];
        e, k := e.next, k + 1;
      }
    }

    /** `Lists_Add` */
    method Add(mask: string, until: int, reason: Reason, once: bool)
      requires Valid()
      modifies this, spine
      ensures Valid() && contents == Added(old(contents), mask, until, reason, once)
      ensures forall n :: n in spine ==> n in old(spine) || fresh(n)
    {
      var e, k := CheckDupeMask(mask);
      if e != null {
        Renew(e, until, reason, k);
      } else {
        Push(Cut(mask, MASK_LEN), until, reason, once);
      }
    }

    /** The part of `Lists_Add` for a mask that is known. */
    method Renew(e: Node, until: int, reason: Reason, ghost k: nat)
      requires Valid() && k < |spine| && e == spine[k]
      modifies this, e
      ensures Valid() && spine == old(spine)
      ensures contents == old(contents)[k :=
                old(contents)[k].(until := until, reason := if reason.Text? then reason else old(contents)[k].reason)]
    {
      e.until := until;
      if reason.Text? {
        e.reason := reason;
      }
      contents := contents[k := e.Value()];
    }

    /** The part of `Lists_Add` for a new mask. */
    method Push(mask: string, until: int, reason: Reason, once: bool)
      requires Valid()
      modifies this
      ensures Valid() && contents == [Entry(mask, reason, until, once)] + old(contents)
      ensures |spine| == |old(spine)| + 1 && fresh(spine[0]) && spine[1..] == old(spine)
    {
      var node := new Node(mask, reason, until, once, first);
      first := node;
      spine, contents := [node] + spine, [node.Value()] + contents;
    }

    /** `Lists_Unlink` of the first entry. */
    method UnlinkFirst(victim: Node)
      requires Valid() && |spine| > 0 && victim == spine[0]
      modifies this
      ensures Valid() && contents == old(contents)[1..] && spine == old(spine)[1..]
    {
      first := victim.next;
      spine, contents := spine[1..], contents[1..];
    }

    /** The node at i of the nodes `o` holds what `c` says and links to the next, or to null. */
    ghost predicate Links(o: seq<Node>, c: seq<Entry>, i: nat)
      requires i < |o| == |c|
      reads o[i]
    {
      o[i].Value() == c[i] && o[i].next == if i + 1 < |o| then o[i + 1] else null
    }

    /** All the nodes `o` link so, except the one before k, which links past k. */
    ghost predicate Past(o: seq<Node>, c: seq<Entry>, k: nat)
      requires 0 < k < |o| == |c|
      reads o
    {
      && o[k - 1].Value() == c[k - 1]
      && o[k - 1].next == (if k + 1 < |o| then o[k + 1] else null)
      && forall j: nat :: j < |o| && j != k - 1 ==> Links(o, c, j)
    }

    /** One node of a list whose nodes `o` are linked past the one at k. */
    lemma BypassedAt(o: seq<Node>, c: seq<Entry>, k: nat, i: nat)
      requires 0 < k < |o| == |c| && i < |o| - 1
      requires Past(o, c, k)
      requires spine == o[..k] + o[k + 1..] && contents == Without(c, k)
      ensures spine[i].next == At(i + 1) && spine[i].Value() == contents[i]
    {
      if i < k - 1 {
        assert Links(o, c, i);
      } else if i >= k {
        assert Links(o, c, i + 1);
      }
    }

    lemma Bypassed(o: seq<Node>, c: seq<Entry>, k: nat)
      requires 0 < k < |o| == |c| && first == o[0]
      requires forall i, j :: 0 <= i < j < |o| ==> o[i] != o[j]
      requires Past(o, c, k)
      requires spine == o[..k] + o[k + 1..] && contents == Without(c, k)
      ensures Valid()
    {
      Cutting(o, k);
      forall i | 0 <= i < |spine| ensures spine[i].next == At(i + 1) && spine[i].Value() == contents[i] {
        BypassedAt(o, c, k, i);
      }
    }

    /** The link that leads past the entry at position k. */
    method Relink(p: Node, victim: Node, ghost k: nat)
      requires Valid() && 0 < k < |spine| && victim == spine[k] && p == spine[k - 1]
      modifies p
      ensures Past(spine, contents, k) && first == spine[0]
    {
      assert victim.next == At(k + 1);
      p.next := victim.next;
      forall i: nat | i < |spine| && i != k - 1 ensures Links(spine, contents, i) {
        assert spine[i] != p;
      }
    }

    /** `Lists_Unlink` of the entry at position k behind `p`. */
    method UnlinkBehind(p: Node, victim: Node, ghost k: nat)
      requires Valid() && 0 < k < |spine| && victim == spine[k] && p == spine[k - 1]
      modifies this, p
      ensures Valid() && contents == Without(old(contents), k)
      ensures spine == old(spine)[..k] + old(spine)[k + 1..]
    {
      ghost var o, c := spine, contents;
      Relink(p, victim, k);
      spine, contents := o[..k] + o[k + 1..], Without(c, k);
      Bypassed(o, c, k);
    }

    /** `Lists_Unlink` of the entry at position k, whose predecessor is `p`. */
    method Unlink(p: Node?, victim: Node, ghost k: nat)
      requires Valid() && k < |spine| && victim == spine[k]
      requires p == if k == 0 then null else spine[k - 1]
      modifies this, p
      ensures Valid() && contents == Without(old(contents), k)
      ensures |spine| == |old(spine)| - 1 && Cursor(k, p, old(victim.next))
      ensures forall n :: n in spine ==> n in old(spine)
    {
      Cutting(spine, k);
      if p != null {
        UnlinkBehind(p, victim, k);
      } else {
        UnlinkFirst(victim);
      }
    }

    /** One step of a walk that unlinks: the entry goes or stays. */
    method Pass(last: Node?, e: Node, out: bool, ghost k: nat, ghost keep: Test, ghost goal: seq<Entry>)
      returns (last1: Node?, e1: Node?, ghost k1: nat)
      requires Valid() && Cursor(k, last, e) && Partly(contents, k, keep, goal) && out == !Keeps(keep, e.Value())
      modifies this, last
      ensures Valid() && Cursor(k1, last1, e1) && Partly(contents, k1, keep, goal)
      ensures |spine| - k1 < |old(spine)| - k && forall n :: n in spine ==> n in old(spine)
    {
      AtCursor(k, last, e);
      ghost var c := contents;
      var next := e.next;
      if out {
        Unlink(last, e, k);
        PartlyDrop(c, k, keep, goal);
        return last, next, k;
      }
      PartlyKeep(c, k, keep, goal);
      return e, next, k + 1;
    }

    /** `Lists_Del` */
    method Del(mask: string)
      requires Valid()
      modifies this, spine
      ensures Valid() && contents == Kept(old(contents), OtherMask(mask))
      ensures forall n :: n in spine ==> n in old(spine)
    {
      var last: Node? := null;
      var e := first;
      ghost var k := 0;
      ghost var goal := Kept(contents, OtherMask(mask));
      PartlyStart(contents, OtherMask(mask));
      while e != null
        invariant Valid() && Cursor(k, last, e) && Partly(contents, k, OtherMask(mask), goal)
        invariant forall n :: n in spine ==> n in old(spine)
        decreases |spine| - k
      {
        AtCursor(k, last, e);
        last, e, k := Pass(last, e, SameNoCase(e.mask, mask), k, OtherMask(mask), goal);
      }
      PartlyEnd(contents, OtherMask(mask), goal);
    }

    /** `Lists_Expire` */
    method Expire(now: int)
      requires Valid()
      modifies this, spine
      ensures Valid() && contents == Kept(old(contents), NotExpired(now))
      ensures forall n :: n in spine ==> n in old(spine)
    {
      var last: Node? := null;
      var e := first;
      ghost var k := 0;
      ghost var goal := Kept(contents, NotExpired(now));
      PartlyStart(contents, NotExpired(now));
      while e != null
        invariant Valid() && Cursor(k, last, e) && Partly(contents, k, NotExpired(now), goal)
        invariant forall n :: n in spine ==> n in old(spine)
        decreases |spine| - k
      {
        AtCursor(k, last, e);
        last, e, k := Pass(last, e, e.until > 0 && e.until < now, k, NotExpired(now), goal);
      }
      PartlyEnd(contents, NotExpired(now), goal);
    }

    /** The test of `Lists_CheckReason` at position k, with none listed before:
        m is the position of the first entry that lists the client. */
    method Hits(e: Node, plain: string, cloaked: string, ghost k: nat, ghost m: nat) returns (listed: bool)
      requires Valid() && k < |spine| && e == spine[k]
      requires k <= m && m == FirstMatch(contents, plain, cloaked)
      ensures listed <==> k == m
    {
      listed := Match.MatchCaseInsensitive(e.mask, cloaked);
      if !listed {
        listed := Match.MatchCaseInsensitive(e.mask, plain);
      }
      assert listed <==> Lists(contents[k], plain, cloaked);
    }

    /** The search of `Lists_CheckReason`: the first entry that lists the client
        and the one before it. */
    method FindListed(plain: string, cloaked: string) returns (e: Node?, last: Node?, ghost k: nat)
      requires Valid()
      ensures k == FirstMatch(contents, plain, cloaked) && Cursor(k, last, e)
    {
      e, last, k := first, null, 0;
      ghost var m := FirstMatch(contents, plain, cloaked);
      while e != null
        invariant Cursor(k, last, e) && k <= m
        decreases |spine| - k
      {
        AtCursor(k, last, e);
        var next := e.next;
        var listed := Hits(e, plain, cloaked, k, m);
        if listed {
          return;
        }
        last, e, k := e, next, k + 1;
      }
    }

    /** `Lists_CheckReason`: `buffer` is what the caller's reason buffer of `len`
        bytes holds before the call. */
    method CheckReason(plain: string, cloaked: string, buffer: string, len: nat)
      returns (listed: bool, reason: string)
      requires Valid()
      modifies this, spine
      ensures Valid() && contents == Checked(old(contents), plain, cloaked)
      ensures forall n :: n in spine ==> n in old(spine)
      ensures Answer(old(contents), plain, cloaked, listed)
      ensures reason == var k := FirstMatch(old(contents), plain, cloaked);
                        if listed && len > 0 && old(contents)[k].reason.Text?
                        then Cut(old(contents)[k].reason.text, len) else buffer
    {
      AnswerIs(contents, plain, cloaked);
      var e, last, k := FindListed(plain, cloaked);
      if e == null {
        return false, buffer;
      }
      reason := if len > 0 && e.reason.Text? then Cut(e.reason.text, len) else buffer;
      if e.once {
        assert last == null || last in spine;
        Unlink(last, e, k);
      }
      listed := true;
    }
  }
}
