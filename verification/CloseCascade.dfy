/** Closing connections: a close writes to other connections, any write may
    fail, and a failed write closes that connection in turn. */
module CloseCascade {

  /** A slot of the connection pool. Closing has CONN_ISCLOSING set; its socket
      is still open or already shut. */
  datatype Slot = Idle | Live(client: bool) | Closing(open: bool, client: bool)

  function Used(s: seq<Slot>): nat {
    if s == [] then 0 else (if s[0].Idle? then 0 else 1) + Used(s[1..])
  }

  function Alive(s: seq<Slot>): nat {
    if s == [] then 0 else (if s[0].Live? then 1 else 0) + Alive(s[1..])
  }

  lemma {:induction false} Update(s: seq<Slot>, i: nat, x: Slot)
    requires i < |s|
    ensures Used(s[i := x]) == Used(s) - (if s[i].Idle? then 0 else 1) + (if x.Idle? then 0 else 1)
    ensures Alive(s[i := x]) == Alive(s) - (if s[i].Live? then 1 else 0) + (if x.Live? then 1 else 0)
  {
    if i == 0 {
      assert s[i := x][1..] == s[1..];
    } else {
      assert s[i := x][1..] == s[1..][i - 1 := x];
      Update(s[1..], i - 1, x);
    }
  }

  predicate Once(log: seq<nat>) { forall i, j :: 0 <= i < j < |log| ==> log[i] != log[j] }

  /** From `s` to `t` exactly the live connections in `log` were closed, each
      once; slots being closed by somebody else were left alone. */
  predicate Closed(s: seq<Slot>, t: seq<Slot>, log: seq<nat>) {
    && |s| == |t| && Once(log)
    && (forall j :: j in log ==> j < |s|)
    && (forall j :: 0 <= j < |s| ==> if j in log then s[j].Live? && t[j].Idle? else t[j] == s[j])
  }

  lemma ClosedThenClosed(s: seq<Slot>, t: seq<Slot>, u: seq<Slot>, a: seq<nat>, b: seq<nat>)
    requires Closed(s, t, a) && Closed(t, u, b)
    ensures Closed(s, u, a + b)
  {
    forall i, j | 0 <= i < |a| && 0 <= j < |b| ensures a[i] != b[j] {
      assert a[i] in a && b[j] in b;
    }
  }

  class Pool {
    var slots: seq<Slot>
    /** NumConnections */
    var num: int
    /** Sockets shut so far, in order. */
    ghost var shut: seq<nat>

    ghost predicate Valid()
      reads this
    {
      num == Used(slots)
    }

    constructor (size: nat)
      ensures Valid() && num == 0 && |slots| == size && forall i :: 0 <= i < size ==> slots[i] == Idle
    {
      slots, num, shut := seq(size, _ => Idle), 0, [];
      new;
      NoneUsed(slots);
    }

    /** `New_Connection` with `Account_Connection`: a free slot is taken. */
    method Accept(i: nat)
      requires Valid() && i < |slots| && slots[i] == Idle
      modifies this
      ensures Valid() && slots == old(slots)[i := Live(true)] && num == old(num) + 1 && shut == old(shut)
    {
      Update(slots, i, Live(true));
      slots, num := slots[i := Live(true)], num + 1;
    }

    /** `Conn_Write`: skipped on a shut socket; a flush may fail, and the buffer
        may be full. */
    method Write(i: nat) returns (ok: bool)
      requires Valid() && i < |slots|
      modifies this
      ensures Valid() && old(shut) <= shut
      ensures Closed(old(slots), slots, shut[|old(shut)|..])
      ensures Alive(slots) <= Alive(old(slots))
      decreases Alive(slots), 2
    {
      Nothing(slots, shut);
      if slots[i].Idle? || slots[i] == Closing(false, slots[i].client) {
        return false;
      }
      var flush: bool := *;
      if flush {
        ok := HandleWrite(i);
        if !ok {
          return;
        }
      }
      var full: bool := *;
      if full {
        ghost var s, a := slots, shut;
        Close(i, false);
        Compose(old(slots), s, slots, old(shut), a, shut);
        return false;
      }
      return true;
    }

    /** `Handle_Write`: a failing write closes the connection unless that is
        going on already. */
    method HandleWrite(i: nat) returns (ok: bool)
      requires Valid() && i < |slots|
      modifies this
      ensures Valid() && old(shut) <= shut
      ensures Closed(old(slots), slots, shut[|old(shut)|..])
      ensures Alive(slots) <= Alive(old(slots))
      ensures ok ==> slots == old(slots) && shut == old(shut)
      decreases Alive(slots), 1
    {
      Nothing(slots, shut);
      if slots[i].Idle? || slots[i] == Closing(false, slots[i].client) {
        return false;
      }
      ok := *;
      if !ok && !slots[i].Closing? {
        Close(i, false);
      }
    }

    /** `Client_Destroy` as seen from here: messages to any connections. */
    method DestroyClient()
      requires Valid()
      modifies this
      ensures Valid() && old(shut) <= shut
      ensures Closed(old(slots), slots, shut[|old(shut)|..])
      ensures Alive(slots) <= Alive(old(slots))
      decreases Alive(slots), 3
    {
      Nothing(slots, shut);
      var messages: nat := *;
      var k := 0;
      while k < messages
        invariant Valid() && old(shut) <= shut
        invariant Closed(old(slots), slots, shut[|old(shut)|..])
        invariant Alive(slots) <= Alive(old(slots))
      {
        var j: nat := *;
        if j < |slots| {
          ghost var s, a := slots, shut;
          var ok := Write(j);
          Compose(old(slots), s, slots, old(shut), a, shut);
        }
        k := k + 1;
      }
    }

    /** The last words of a connection that is being closed. */
    method Farewell(i: nat, inform: bool)
      requires Valid() && i < |slots|
      modifies this
      ensures Valid() && old(shut) <= shut
      ensures Closed(old(slots), slots, shut[|old(shut)|..])
      ensures Alive(slots) <= Alive(old(slots))
      decreases Alive(slots), 3
    {
      Nothing(slots, shut);
      if inform {
        var ok := Write(i);
      }
      ghost var s, a := slots, shut;
      var ok := HandleWrite(i);
      Compose(old(slots), s, slots, old(shut), a, shut);
    }

    /** `Conn_Close`: inform, flush, shut the socket, unregister the client,
        free the slot. A second request for the same link is ignored. */
    method Close(i: nat, inform: bool)
      requires Valid() && i < |slots| && !slots[i].Idle?
      modifies this
      ensures Valid() && old(shut) <= shut
      ensures Closed(old(slots), slots, shut[|old(shut)|..])
      ensures Alive(slots) <= Alive(old(slots))
      ensures old(slots)[i].Live? ==> slots[i].Idle?
      ensures old(slots)[i].Closing? ==> slots == old(slots) && shut == old(shut)
      decreases Alive(slots), 0
    {
      Nothing(slots, shut);
      if slots[i].Closing? {
        return;
      }
      var client := slots[i].client;
      Update(slots, i, Closing(true, client));
      slots := slots[i := Closing(true, client)];
      ghost var a1 := shut;
      Farewell(i, inform);

      ghost var s3, a3 := slots, shut;
      Update(slots, i, Closing(false, client));
      slots, shut := slots[i := Closing(false, client)], shut + [i];
      ghost var s4, a4 := slots, shut;
      Nothing(slots, shut);
      if client {
        DestroyClient();
      }
      ghost var s5, a5 := slots, shut;
      Update(slots, i, Idle);
      slots, num := slots[i := Idle], num - 1;
      Around(old(slots), i, client, s3, s5, a3[|a1|..], a5[|a4|..]);
      assert shut[|old(shut)|..] == a3[|a1|..] + [i] + a5[|a4|..];
    }
  }

  /** What one close does around the closes it causes. */
  lemma Around(s: seq<Slot>, i: nat, client: bool, t: seq<Slot>, u: seq<Slot>, a: seq<nat>, b: seq<nat>)
    requires i < |s| && s[i].Live?
    requires Closed(s[i := Closing(true, client)], t, a)
    requires Closed(t[i := Closing(false, client)], u, b)
    ensures Closed(s, u[i := Idle], a + [i] + b)
  {
    var s1, t1 := s[i := Closing(true, client)], t[i := Closing(false, client)];
    assert i !in a && i !in b;
    assert Once(a + [i] + b) by {
      forall j, k | 0 <= j < |a| && 0 <= k < |b| ensures a[j] != b[k] {
        assert a[j] in a && b[k] in b && t[a[j]].Idle?;
      }
    }
    forall j | 0 <= j < |s|
      ensures if j in a + [i] + b then s[j].Live? && u[i := Idle][j].Idle? else u[i := Idle][j] == s[j]
    {
      assert j != i ==> s1[j] == s[j] && t1[j] == t[j];
    }
  }

  lemma {:induction false} NoneUsed(s: seq<Slot>)
    requires forall i :: 0 <= i < |s| ==> s[i] == Idle
    ensures Used(s) == 0
  {
    if s != [] { NoneUsed(s[1..]); }
  }

  lemma Nothing(s: seq<Slot>, shut: seq<nat>)
    ensures Closed(s, s, shut[|shut|..])
  {}

  lemma Compose(s: seq<Slot>, t: seq<Slot>, u: seq<Slot>, a: seq<nat>, b: seq<nat>, c: seq<nat>)
    requires a <= b <= c && Closed(s, t, b[|a|..]) && Closed(t, u, c[|b|..])
    ensures a <= c && c[..|a|] == a && Closed(s, u, c[|a|..])
  {
    ClosedThenClosed(s, t, u, b[|a|..], c[|b|..]);
    assert c[|a|..] == b[|a|..] + c[|b|..];
  }

  predicate AtRest(s: seq<Slot>) { forall i :: 0 <= i < |s| ==> !s[i].Closing? }

  function OpenSockets(s: seq<Slot>): nat {
    if s == [] then 0 else
      (if s[0].Live? || (s[0].Closing? && s[0].open) then 1 else 0) + OpenSockets(s[1..])
  }

  /** A cascade lowers the number of used slots by the number of sockets it
      shut; once nothing is half closed, used slots are open sockets. */
  lemma {:induction false} CascadeCounts(s: seq<Slot>, t: seq<Slot>, log: seq<nat>)
    requires Closed(s, t, log)
    ensures Used(t) == Used(s) - |log|
    ensures AtRest(s) ==> AtRest(t) && Used(t) == OpenSockets(t)
    decreases |log|
  {
    if log == [] {
      assert t == s;
    } else {
      var rest, i := log[..|log| - 1], log[|log| - 1];
      assert i in log && i !in rest && forall j :: j in log <==> j in rest || j == i;
      var u := t[i := s[i]];
      CascadeCounts(s, u, rest);
      assert u[i := t[i]] == t;
      Update(u, i, t[i]);
    }
    if AtRest(t) { RestingOpen(t); }
  }

  lemma {:induction false} RestingOpen(s: seq<Slot>)
    requires AtRest(s)
    ensures Used(s) == OpenSockets(s) == Alive(s)
  {
    if s != [] { RestingOpen(s[1..]); }
  }

  /** What the main loop can do to the pool: take a slot, or let a close run. */
  datatype Event = Accepted(slot: nat) | Cascade(log: seq<nat>)

  predicate Follows(s: seq<Slot>, e: Event, t: seq<Slot>) {
    match e
    case Accepted(i) => i < |s| && s[i] == Idle && t == s[i := Live(true)]
    case Cascade(log) => Closed(s, t, log)
  }

  predicate IsRun(states: seq<seq<Slot>>, events: seq<Event>) {
    && |states| == |events| + 1
    && forall k :: 0 <= k < |events| ==> Follows(states[k], events[k], states[k + 1])
  }

  function Opened(events: seq<Event>, i: nat): nat {
    if events == [] then 0 else
      Opened(events[..|events| - 1], i) + (if events[|events| - 1] == Accepted(i) then 1 else 0)
  }

  function Shut(events: seq<Event>, i: nat): nat {
    if events == [] then 0 else
      Shut(events[..|events| - 1], i)
      + (var e := events[|events| - 1]; if e.Cascade? && i in e.log then 1 else 0)
  }

  /** Over every run from an empty pool, each slot is shut exactly as often as it
      was taken, save for the connection that is open in it now. */
  lemma {:induction false} RunBalances(states: seq<seq<Slot>>, events: seq<Event>, i: nat)
    requires IsRun(states, events)
    requires forall j :: 0 <= j < |states[0]| ==> states[0][j] == Idle
    ensures AtRest(states[|events|])
    ensures Opened(events, i) ==
            Shut(events, i) + (if i < |states[|events|]| && states[|events|][i].Live? then 1 else 0)
    decreases |events|
  {
    if events != [] {
      var n := |events| - 1;
      RunBalances(states[..n + 1], events[..n], i);
      assert Follows(states[n], events[n], states[n + 1]);
    }
  }
}
