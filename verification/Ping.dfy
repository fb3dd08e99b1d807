/** The timers of a connection: PING, PONG and the closing of silent peers
    (`conn.c`, `conn-func.c`). */
module Ping {

  /** Conf_PingTimeout and Conf_PongTimeout, in seconds */
  datatype Conf = Conf(ping: nat, pong: nat)

  datatype Status = Open | PingTimeout | LoginTimeout

  datatype Timers = Timers(status: Status, registered: bool, lastdata: int, lastping: int)

  /** What can happen to a connection, with the time where it matters. */
  datatype Event =
    | Check(at: int)      // Check_Connections
    | Read(at: int)       // data read from the socket
    | Pong                // IRC_PONG
    | Register            // the client becomes a user, server or service

  /** `Init_Conn_Struct` */
  function SignOn(at: int): Timers { Timers(Open, false, at, 0) }

  /** `Conn_Check_Connection_Timeout` */
  function CheckRegistered(s: Timers, now: int, conf: Conf): Timers {
    if s.lastping > s.lastdata then
      if s.lastping < now - conf.pong then s.(status := PingTimeout) else s
    else if s.lastdata < now - conf.ping then s.(lastping := now)
    else s
  }

  /** `Conn_Check_Server_Timeout` */
  function CheckUnregistered(s: Timers, now: int, conf: Conf): Timers {
    if s.lastdata < now - conf.pong then s.(status := LoginTimeout) else s
  }

  /** `Conn_Update_Read_Accounting` */
  function Accounted(s: Timers, now: int): Timers {
    if s.registered then s.(lastdata := now, lastping := if s.lastping > now then now else s.lastping) else s
  }

  function Act(s: Timers, e: Event, conf: Conf): Timers {
    if s.status != Open then s else
      match e
      case Check(now) => if s.registered then CheckRegistered(s, now, conf) else CheckUnregistered(s, now, conf)
      case Read(now) => Accounted(s, now)
      case Pong => s.(lastping := 1)
      case Register => s.(registered := true)
  }

  function Run(signon: int, events: seq<Event>, conf: Conf): Timers {
    if events == [] then SignOn(signon)
    else Act(Run(signon, events[..|events| - 1], conf), events[|events| - 1], conf)
  }

  predicate Timed(e: Event) { e.Check? || e.Read? }

  /** The clock after these events. */
  function Clock(signon: int, events: seq<Event>): int {
    if events == [] then signon
    else
      var e := events[|events| - 1];
      if Timed(e) then e.at else Clock(signon, events[..|events| - 1])
  }

  /** The clock starts after second 1 of the epoch and never goes back. */
  predicate Ordered(signon: int, events: seq<Event>) {
    && 1 <= signon
    && forall k :: 0 <= k < |events| && Timed(events[k]) ==> Clock(signon, events[..k]) <= events[k].at
  }

  /** When the peer was last heard of: its last read while registered, or its
      sign-on. */
  function LastHeard(signon: int, events: seq<Event>): int {
    if events == [] then signon
    else
      var e, before := events[|events| - 1], events[..|events| - 1];
      if e.Read? && Register in before then e.at else LastHeard(signon, before)
  }

  /** While a connection is open its timers say this about its past: `lastdata`
      is when the peer was last heard of, and a pending PING was sent only after
      more than PingTimeout of silence. */
  predicate Tells(s: Timers, signon: int, events: seq<Event>, conf: Conf) {
    && (s.registered <==> Register in events)
    && s.lastdata == LastHeard(signon, events)
    && 1 <= s.lastdata <= Clock(signon, events)
    && s.lastping <= Clock(signon, events)
    && (s.lastping > s.lastdata ==> s.lastdata + conf.ping < s.lastping)
  }

  lemma ActTells(s: Timers, signon: int, events: seq<Event>, e: Event, conf: Conf)
    requires s.status == Open && Tells(s, signon, events, conf)
    requires Timed(e) ==> Clock(signon, events) <= e.at
    ensures Act(s, e, conf).status == Open ==> Tells(Act(s, e, conf), signon, events + [e], conf)
  {
    assert (events + [e])[..|events|] == events;
  }

  lemma OrderedPrefix(signon: int, events: seq<Event>, k: nat)
    requires Ordered(signon, events) && k <= |events|
    ensures Ordered(signon, events[..k])
  {
    forall i | 0 <= i < k && Timed(events[i]) ensures Clock(signon, events[..k][..i]) <= events[i].at {
      assert events[..k][..i] == events[..i];
    }
  }

  lemma {:induction false} RunTells(signon: int, events: seq<Event>, conf: Conf)
    requires Ordered(signon, events)
    ensures Run(signon, events, conf).status == Open ==> Tells(Run(signon, events, conf), signon, events, conf)
  {
    if events != [] {
      var n := |events| - 1;
      OrderedPrefix(signon, events, n);
      RunTells(signon, events[..n], conf);
      assert events == events[..n] + [events[n]];
      if Run(signon, events[..n], conf).status == Open {
        ActTells(Run(signon, events[..n], conf), signon, events[..n], events[n], conf);
      }
    }
  }

  /** Closed for ping timeout only after more than PingTimeout + PongTimeout of
      silence, and only when registered. */
  lemma TimeoutOnlyWhenSilent(signon: int, events: seq<Event>, now: int, conf: Conf)
    requires Ordered(signon, events) && Clock(signon, events) <= now
    requires Run(signon, events, conf).status == Open
    requires Run(signon, events + [Check(now)], conf).status == PingTimeout
    ensures LastHeard(signon, events) + conf.ping + conf.pong < now
    ensures Register in events
  {
    RunTells(signon, events, conf);
    assert (events + [Check(now)])[..|events|] == events;
  }

  /** Nothing heard: no data, no PONG. */
  predicate Silent(events: seq<Event>) { forall e :: e in events ==> e.Check? || e.Register? }

  predicate NoCheckAfter(events: seq<Event>, limit: int) {
    forall e :: e in events && e.Check? ==> e.at <= limit
  }

  function RunFrom(s: Timers, events: seq<Event>, conf: Conf): Timers {
    if events == [] then s else Act(RunFrom(s, events[..|events| - 1], conf), events[|events| - 1], conf)
  }

  /** A pending PING survives silence until a check more than PongTimeout later. */
  lemma {:induction false} Waiting(s: Timers, events: seq<Event>, conf: Conf)
    requires s.status == Open && s.registered && s.lastping > s.lastdata
    requires Silent(events) && NoCheckAfter(events, s.lastping + conf.pong)
    ensures RunFrom(s, events, conf) == s
  {
    if events != [] {
      var n := |events| - 1;
      assert events[n] in events;
      Waiting(s, events[..n], conf);
    }
  }

  /** A silent peer is closed at the first check more than PongTimeout after its
      PING: not before, and then for sure. */
  lemma SilentIsClosed(s: Timers, events: seq<Event>, now: int, conf: Conf)
    requires s.status == Open && s.registered && s.lastping > s.lastdata
    requires Silent(events) && NoCheckAfter(events, s.lastping + conf.pong)
    ensures RunFrom(s, events, conf).status == Open
    ensures Act(RunFrom(s, events, conf), Check(now), conf).status == PingTimeout <==> s.lastping + conf.pong < now
  {
    Waiting(s, events, conf);
  }

  /** With no PING pending, silence brings a PING at the first check more than
      PingTimeout after the peer was last heard of. */
  lemma {:induction false} SilentIsPinged(s: Timers, events: seq<Event>, now: int, conf: Conf)
    requires s.status == Open && s.registered && s.lastping <= s.lastdata < now
    requires Silent(events) && NoCheckAfter(events, s.lastdata + conf.ping)
    ensures RunFrom(s, events, conf) == s
    ensures var r := Act(s, Check(now), conf);
            r.status == Open && (r.lastping == now > r.lastdata <==> s.lastdata + conf.ping < now)
    decreases |events|
  {
    if events != [] {
      var n := |events| - 1;
      assert events[n] in events;
      SilentIsPinged(s, events[..n], now, conf);
    }
  }

  /** The fields of CONNECTION that the timers use. */
  class Connection {
    var status: Status
    var registered: bool
    var lastdata: int
    var lastping: int
    /** Bytes processed in the second of `lastdata`. */
    var bps: nat

    function State(): Timers
      reads this
    {
      Timers(status, registered, lastdata, lastping)
    }

    constructor (now: int)
      ensures State() == SignOn(now) && bps == 0
    {
      status, registered, lastdata, lastping, bps := Open, false, now, 0, 0;
    }

    /** `Conn_UpdatePing` */
    method UpdatePing(stamp: int)
      modifies this`lastping
      ensures lastping == stamp
    {
      lastping := stamp;
    }

    /** `Conn_Check_Connection_Status` on an open connection */
    method CheckStatus(now: int, conf: Conf)
      requires status == Open
      modifies this
      ensures State() == Act(old(State()), Check(now), conf) && bps == old(bps)
    {
      if registered {
        if lastping > lastdata {
          if lastping < now - conf.pong {
            status := PingTimeout;
          }
        } else if lastdata < now - conf.ping {
          UpdatePing(now);
        }
      } else if lastdata < now - conf.pong {
        status := LoginTimeout;
      }
    }

    /** `Conn_Update_Read_Accounting`: the count of bytes starts over with every
        second, and a peer that reached the maximum is to be throttled. */
    method UpdateReadAccounting(now: int, maxbps: nat) returns (throttle: bool)
      requires status == Open
      modifies this
      ensures State() == Act(old(State()), Read(now), Conf(0, 0))
      ensures bps == if registered && old(lastdata) != now then 0 else old(bps)
      ensures throttle == (bps >= maxbps)
    {
      if registered {
        if lastdata != now {
          bps := 0;
        }
        lastdata := now;
        if lastping > now {
          lastping := now;
        }
      }
      throttle := bps >= maxbps;
    }
  }

  /** A connection that does not register is closed at the first check more than
      PongTimeout after its sign-on, and not before. */
  lemma LoginTimesOut(signon: int, events: seq<Event>, now: int, conf: Conf)
    requires Register !in events && Run(signon, events, conf).status == Open
    ensures Run(signon, events + [Check(now)], conf).status == (if signon + conf.pong < now then LoginTimeout else Open)
  {
    Unregistered(signon, events, conf);
    assert (events + [Check(now)])[..|events|] == events;
  }

  lemma {:induction false} Unregistered(signon: int, events: seq<Event>, conf: Conf)
    requires Register !in events && Run(signon, events, conf).status == Open
    ensures var s := Run(signon, events, conf); !s.registered && s.lastdata == signon
  {
    if events != [] {
      var n := |events| - 1;
      assert events[n] in events;
      Unregistered(signon, events[..n], conf);
    }
  }

  /** A PONG or any data from a registered peer keeps the next check from closing
      its connection. */
  lemma HeardIsKept(s: Timers, e: Event, now: int, conf: Conf)
    requires s.status == Open && s.registered && s.lastdata >= 1 && (e.Pong? || e.Read?)
    ensures Act(Act(s, e, conf), Check(now), conf).status == Open
  {}
}
