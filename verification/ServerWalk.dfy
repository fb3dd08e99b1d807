/** The walk over the client list that writes to every server, while a write
    may close links and so take clients off the list. */
module ServerWalk {
  import opened Defines
  import opened Clients
  import Network

  /** Clients with a connection of their own: local ones and linked servers. */
  predicate Direct(t: Table, p: Ptr) {
    p in t.rec && p != THIS && (t.rec[p].introducer == p || t.rec[p].introducer == THIS)
  }

  /** Everybody who is reached through one of these links. */
  ghost function Via(t: Table, links: set<Ptr>): set<Ptr>
    requires Valid(t)
  {
    set p | p in t.rec && NextHop(t, p) in links
  }

  /** The client list once these links are closed. */
  ghost function Left(t: Table, links: set<Ptr>): Table
    requires Valid(t)
  {
    Without(t, Via(t, links))
  }

  /** A pointer kept while links are closed is good exactly when its own link
      is none of them. */
  lemma HeldAcross(t: Table, links: set<Ptr>, p: Ptr)
    requires Valid(t) && p in t.rec
    ensures p in Left(t, links).rec <==> NextHop(t, p) !in links
  {}

  lemma ViaClosed(t: Table, links: set<Ptr>)
    requires Valid(t) && THIS !in links
    ensures Closed(t, Via(t, links)) && THIS !in Via(t, links)
  {
    forall p | p in t.rec && p !in Via(t, links) ensures t.rec[p].introducer !in Via(t, links) {
      assert Introduced(t, p);
    }
  }

  lemma LeftValid(t: Table, links: set<Ptr>)
    requires Valid(t) && THIS !in links
    ensures Valid(Left(t, links))
  {
    ViaClosed(t, links);
    WithoutValid(t, Via(t, links));
  }

  /** Who stays is reached as before. */
  lemma {:induction false} HopStays(t: Table, gone: set<Ptr>, p: Ptr)
    requires Valid(t) && Closed(t, gone) && THIS !in gone && p in t.rec && p !in gone
    ensures Valid(Without(t, gone)) && NextHop(Without(t, gone), p) == NextHop(t, p)
    decreases p
  {
    WithoutValid(t, gone);
    assert Introduced(t, p);
    var q := t.rec[p].introducer;
    if q != p && q != THIS { HopStays(t, gone, q); }
  }

  lemma LeftLeft(t: Table, a: set<Ptr>, b: set<Ptr>)
    requires Valid(t) && THIS !in a && THIS !in b
    ensures Valid(Left(t, a)) && Left(Left(t, a), b) == Left(t, a + b)
  {
    LeftValid(t, a);
    ViaClosed(t, a);
    var u := Left(t, a);
    forall p | p in u.rec ensures NextHop(u, p) == NextHop(t, p) { HopStays(t, Via(t, a), p); }
    WithoutWithout(t, Via(t, a), Via(u, b));
    assert Via(t, a) + Via(u, b) == Via(t, a + b);
  }

  /** Closing one link is what `Client_Destroy` does to the list. */
  lemma OneLink(t: Table, l: Ptr)
    requires Valid(t) && Direct(t, l)
    ensures Without(t, Behind(t, l)) == Left(t, {l})
  {
    forall p | p in t.rec ensures Reaches(t, p, l) <==> NextHop(t, p) == l { BehindLink(t, p, l); }
    assert Behind(t, l) == Via(t, {l});
  }

  /** One message: the server it was written to, and the links that were closed
      meanwhile. */
  datatype Turn = Turn(server: Ptr, closed: set<Ptr>)

  function AllClosed(turns: seq<Turn>): set<Ptr> {
    set k, l | 0 <= k < |turns| && l in turns[k].closed :: l
  }

  /** The servers that get a message. */
  predicate Target(t: Table, except: Ptr, flagged: set<Ptr>, p: Ptr) {
    Direct(t, p) && t.rec[p].kind == Server && p != except && p in flagged
  }

  predicate ClosedBefore(turns: seq<Turn>, p: Ptr) {
    exists k :: 0 <= k < |turns| && turns[k].server > p && p in turns[k].closed
  }

  predicate Written(turns: seq<Turn>, p: Ptr) { exists k :: 0 <= k < |turns| && turns[k].server == p }

  /** No message closed the link it was written to. */
  predicate Safe(turns: seq<Turn>) { forall k :: 0 <= k < |turns| ==> turns[k].server !in turns[k].closed }

  /** The last message, and no other, closed the link it was written to. */
  predicate Broken(turns: seq<Turn>, c: int) {
    && turns != [] && turns[|turns| - 1].server == c && turns[|turns| - 1].server in turns[|turns| - 1].closed
    && forall k :: 0 <= k < |turns| - 1 ==> turns[k].server !in turns[k].closed
  }

  /** The turns so far of a walk to the servers in `goal` that has passed all
      clients above c. */
  ghost predicate Walked(goal: set<Ptr>, turns: seq<Turn>, c: int) {
    && (forall k :: 0 <= k < |turns| ==> turns[k].server in goal && turns[k].server > c)
    && (forall j, k :: 0 <= j < k < |turns| ==>
          turns[j].server > turns[k].server && turns[k].server !in turns[j].closed)
    && (forall p :: p in goal && p > c ==> Written(turns, p) || ClosedBefore(turns, p))
  }

  /** All servers that should get a message. */
  function Goal(t: Table, except: Ptr, flagged: set<Ptr>): set<Ptr> {
    set p | p in t.rec && Target(t, except, flagged, p)
  }

  /** Of the servers that should get a message, those whose link was not closed
      are still there, and nobody else became one. */
  lemma Standing(t: Table, except: Ptr, flagged: set<Ptr>, links: set<Ptr>, p: Ptr)
    requires Valid(t)
    ensures p in Goal(t, except, flagged) ==> (p in Left(t, links).rec <==> p !in links)
    ensures p in Left(t, links).rec ==>
              (Target(Left(t, links), except, flagged, p) <==> p in Goal(t, except, flagged))
  {
    if p in t.rec { HeldAcross(t, links, p); }
  }

  /** One more link closed. */
  lemma OneMore(was: Table, links: set<Ptr>, t: Table, l: Ptr)
    requires Valid(was) && THIS !in links && t == Left(was, links) && Valid(t) && Direct(t, l)
    ensures Valid(Left(was, links + {l})) && Without(t, Behind(t, l)) == Left(was, links + {l})
  {
    OneLink(t, l);
    LeftLeft(was, links, {l});
    LeftValid(was, links + {l});
  }

  class Walker {
    var t: Table

    /** `Client_Next`: the client behind one in the list; -1 is NULL. */
    method Next(c: Ptr) returns (next: int)
      requires Valid(t) && c in t.rec
      ensures next == -1 || (0 <= next < c && next in t.rec)
      ensures forall p :: p in t.rec && p < c ==> p <= next
    {
      var k := 0;
      while t.list[k] != c
        invariant 0 <= k < |t.list| && c in t.list[k..]
        decreases |t.list| - k
      {
        k := k + 1;
      }
      if k + 1 == |t.list| {
        return -1;
      }
      return t.list[k + 1];
    }

    /** A message that is written: any links may be closed on the way, each with
        everybody behind it. */
    method Callback() returns (closed: set<Ptr>)
      requires Valid(t)
      modifies this
      ensures THIS !in closed && Valid(t) && t == Left(old(t), closed)
    {
      closed := {};
      LeftNothing(t);
      ghost var was := t;
      var n: nat := *;
      while n > 0
        invariant THIS !in closed && Valid(t) && t == Left(was, closed)
      {
        var l: nat := *;
        if Direct(t, l) {
          OneMore(was, closed, t, l);
          t := Without(t, Behind(t, l));
          closed := closed + {l};
        }
        n := n - 1;
      }
    }

    /** The list is `was` without the links closed by these turns. */
    ghost predicate After(was: Table, turns: seq<Turn>)
      reads this
    {
      Valid(was) && Valid(t) && THIS !in AllClosed(turns) && t == Left(was, AllClosed(turns))
    }

    /** The walk is at c, or at the end of the list. */
    ghost predicate InWalk(was: Table, goal: set<Ptr>, turns: seq<Turn>, c: int)
      reads this
    {
      After(was, turns) && Safe(turns) && Walked(goal, turns, c) && (c == -1 || (c >= 0 && c in t.rec))
    }

    /** The body of the loop up to `Client_Next`: a message for c if it is one of
        the servers. */
    method Serve(c: Ptr, except: Ptr, flagged: set<Ptr>, turns: seq<Turn>, ghost was: Table)
      returns (turns1: seq<Turn>)
      requires InWalk(was, Goal(was, except, flagged), turns, c)
      modifies this
      ensures After(was, turns1) && Walked(Goal(was, except, flagged), turns1, c - 1)
      ensures c in t.rec ==> Safe(turns1)
      ensures c !in t.rec ==> Broken(turns1, c)
    {
      Standing(was, except, flagged, AllClosed(turns), c);
      if !Target(t, except, flagged, c) {
        return turns;
      }
      var closed := Callback();
      turns1 := turns + [Turn(c, closed)];
      Message(was, except, flagged, turns, c, closed);
    }

    /** On to the next client. */
    method Proceed(c: Ptr, except: Ptr, flagged: set<Ptr>, ghost turns: seq<Turn>, ghost was: Table)
      returns (next: int)
      requires After(was, turns) && Safe(turns) && c in t.rec
      requires Walked(Goal(was, except, flagged), turns, c - 1)
      ensures -1 <= next < c && InWalk(was, Goal(was, except, flagged), turns, next)
    {
      next := Next(c);
      ghost var goal := Goal(was, except, flagged);
      forall p | p in goal && next < p < c ensures p in AllClosed(turns) {
        Standing(was, except, flagged, AllClosed(turns), p);
      }
      Passed(goal, turns, c, next);
    }

    /** `IRC_WriteStrServersPrefixFlag_CB`: the next client is looked for behind
        the one just served, which must still be there. The result is -1 when the
        walk got to the end of the list, else the client it was lost at. */
    method WriteServers(except: Ptr, flagged: set<Ptr>) returns (turns: seq<Turn>, c: int)
      requires Valid(t)
      modifies this
      ensures After(old(t), turns)
      ensures c == -1 ==> Safe(turns) && Walked(Goal(old(t), except, flagged), turns, -1)
      ensures c != -1 ==> Broken(turns, c) && Walked(Goal(old(t), except, flagged), turns, c - 1)
    {
      turns := [];
      ghost var was := t;
      Beginning(t, Goal(t, except, flagged));
      c := t.list[0];
      while c >= 0
        invariant InWalk(was, Goal(was, except, flagged), turns, c)
      {
        turns := Serve(c, except, flagged, turns, was);
        if c !in t.rec {
          return;
        }
        c := Proceed(c, except, flagged, turns, was);
      }
    }
  }

  /** What one more message to a server of the goal means. */
  lemma Message(was: Table, except: Ptr, flagged: set<Ptr>, turns: seq<Turn>, c: Ptr, closed: set<Ptr>)
    requires Valid(was) && THIS !in AllClosed(turns) && THIS !in closed
    requires c in Goal(was, except, flagged) && c !in AllClosed(turns)
    requires Safe(turns) && Walked(Goal(was, except, flagged), turns, c)
    ensures var turns1 := turns + [Turn(c, closed)];
            && THIS !in AllClosed(turns1) && Valid(Left(was, AllClosed(turns)))
            && Left(Left(was, AllClosed(turns)), closed) == Left(was, AllClosed(turns1))
            && Walked(Goal(was, except, flagged), turns1, c - 1)
            && if c in Left(was, AllClosed(turns1)).rec then Safe(turns1) else Broken(turns1, c)
  {
    var turns1 := turns + [Turn(c, closed)];
    ClosedSnoc(turns, Turn(c, closed));
    LeftLeft(was, AllClosed(turns), closed);
    Standing(was, except, flagged, AllClosed(turns1), c);
    Called(Goal(was, except, flagged), turns, c, closed);
    SafeSnoc(turns, Turn(c, closed));
  }

  lemma SafeSnoc(turns: seq<Turn>, x: Turn)
    requires Safe(turns)
    ensures if x.server in x.closed then Broken(turns + [x], x.server) else Safe(turns + [x])
  {
    assert (turns + [x])[|turns|] == x;
  }

  /** The walk starts at the head of the list. */
  lemma Beginning(t: Table, goal: set<Ptr>)
    requires Valid(t) && forall p :: p in goal ==> p in t.rec
    ensures |t.list| > 0 && t.list[0] in t.rec && Walked(goal, [], t.list[0])
    ensures AllClosed([]) == {} && Left(t, {}) == t
  {
    LeftNothing(t);
  }

  /** The walk after one more message. */
  lemma Called(goal: set<Ptr>, turns: seq<Turn>, c: Ptr, closed: set<Ptr>)
    requires Walked(goal, turns, c) && c in goal && c !in AllClosed(turns)
    ensures Walked(goal, turns + [Turn(c, closed)], c - 1)
  {
    var next := turns + [Turn(c, closed)];
    forall j | 0 <= j < |turns| ensures c !in turns[j].closed {
      assert c in turns[j].closed ==> c in AllClosed(turns);
    }
    forall p | p in goal && p > c - 1 ensures Written(next, p) || ClosedBefore(next, p) {
      if p == c {
        assert next[|turns|].server == p;
      } else if Written(turns, p) {
        var k :| 0 <= k < |turns| && turns[k].server == p;
        assert next[k].server == p;
      } else {
        var k :| 0 <= k < |turns| && turns[k].server > p && p in turns[k].closed;
        assert next[k] == turns[k];
      }
    }
  }

  lemma ClosedSnoc(turns: seq<Turn>, x: Turn)
    ensures AllClosed(turns + [x]) == AllClosed(turns) + x.closed
  {
    var next := turns + [x];
    forall l | l in x.closed ensures l in AllClosed(next) { assert l in next[|turns|].closed; }
    forall l | l in AllClosed(turns) ensures l in AllClosed(next) {
      var k :| 0 <= k < |turns| && l in turns[k].closed;
      assert l in next[k].closed;
    }
  }

  /** On the way to the next client only closed links are skipped. */
  lemma Passed(goal: set<Ptr>, turns: seq<Turn>, c: Ptr, next: int)
    requires Walked(goal, turns, c - 1) && -1 <= next < c
    requires forall p :: p in goal && next < p < c ==> p in AllClosed(turns)
    ensures Walked(goal, turns, next)
  {
    forall p | p in goal && next < p < c ensures ClosedBefore(turns, p) {
      var k :| 0 <= k < |turns| && p in turns[k].closed;
    }
  }

  /** A walk that gets to the end writes to linked servers only: not to this one,
      not to the excepted one, and only to flagged ones. Each of them is written to
      exactly once, unless an earlier message had its link closed, and then never;
      those still linked at the end all got the message. */
  lemma WalkServes(t: Table, except: Ptr, flagged: set<Ptr>, turns: seq<Turn>, p: Ptr)
    requires Valid(t) && Walked(Goal(t, except, flagged), turns, -1) && p in t.rec
    ensures var linked := p != THIS && t.rec[p].kind == Server && t.rec[p].introducer in {p, THIS};
            if linked && p != except && p in flagged then
              && (Written(turns, p) <==> !ClosedBefore(turns, p))
              && (p in Left(t, AllClosed(turns)).rec ==> Written(turns, p))
            else !Written(turns, p)
    ensures forall j, k :: 0 <= j < |turns| && 0 <= k < |turns| && turns[j].server == turns[k].server == p ==> j == k
  {
    Standing(t, except, flagged, AllClosed(turns), p);
    if Target(t, except, flagged, p) && ClosedBefore(turns, p) {
      var k :| 0 <= k < |turns| && turns[k].server > p && p in turns[k].closed;
      assert p in AllClosed(turns);
    }
  }

  lemma LeftNothing(t: Table)
    requires Valid(t)
    ensures Left(t, {}) == t
  {
    assert Via(t, {}) == {};
    Network.KeepAll(t.list);
  }
}
