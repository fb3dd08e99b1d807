/** The event table of the select back end (`io.c`): which descriptors are
    watched for what, and the dispatch of one `select` result. */
module Select {

  datatype Callback = Null | Fn(id: nat)

  /** `io_event`: the IO_WANTREAD and IO_WANTWRITE bits are `read` and `write`. */
  datatype Entry = Entry(callback: Callback, read: bool, write: bool)

  const BLANK := Entry(Null, false, false)

  /** FD_SETSIZE of the platform */
  const SETSIZE: nat := 1024

  datatype Table = Table(events: seq<Entry>, readers: set<nat>, writers: set<nat>, maxfd: nat)

  datatype Op =
    | Create(fd: nat, read: bool, write: bool, id: nat)
    | SetCallback(fd: nat, id: nat)
    | Add(fd: nat, read: bool, write: bool)
    | Del(fd: nat, read: bool, write: bool)
    | Close(fd: nat)

  predicate Hooked(t: Table, fd: nat) { fd < |t.events| && t.events[fd].callback != Null }

  /** `array_alloc` of one entry: the table grows to hold it, zero filled. */
  function Grown(events: seq<Entry>, fd: nat): (r: seq<Entry>)
    ensures |r| >= |events| && fd < |r| && r[..|events|] == events
    ensures forall i :: |events| <= i < |r| ==> r[i] == BLANK
  {
    if fd < |events| then events else events + seq(fd + 1 - |events|, _ => BLANK)
  }

  /** `io_event_add` */
  function Added(t: Table, fd: nat, read: bool, write: bool): (r: Table)
    requires fd < |t.events|
  {
    var e := t.events[fd];
    if (read ==> e.read) && (write ==> e.write) then t
    else Table(t.events[fd := Entry(e.callback, e.read || read, e.write || write)],
               if read then t.readers + {fd} else t.readers,
               if write then t.writers + {fd} else t.writers,
               if fd > t.maxfd then fd else t.maxfd)
  }

  /** `io_event_create`: the event bits are reset, added, and set once more. */
  function Created(t: Table, fd: nat, read: bool, write: bool, id: nat): (r: Table) {
    if fd >= SETSIZE then t else
      var blank := Grown(t.events, fd)[fd := Entry(Fn(id), false, false)];
      var a := Added(t.(events := blank), fd, read, write);
      a.(events := a.events[fd := Entry(Fn(id), read, write)])
  }

  /** `io_event_del` */
  function Deleted(t: Table, fd: nat, read: bool, write: bool): (r: Table)
    requires fd < |t.events|
  {
    var e := t.events[fd];
    if !((read && e.read) || (write && e.write)) then t
    else Table(t.events[fd := Entry(e.callback, e.read && !read, e.write && !write)],
               if read then t.readers - {fd} else t.readers,
               if write then t.writers - {fd} else t.writers,
               t.maxfd)
  }

  /** The largest descriptor below `m` that has a callback, or 0. */
  function Lower(events: seq<Entry>, m: nat): (r: nat)
    requires m <= |events|
    ensures r <= m
    ensures r == 0 || (r < m && events[r].callback != Null)
    ensures forall j :: r < j < m ==> events[j].callback == Null
  {
    if m == 0 then 0
    else if events[m - 1].callback != Null then m - 1
    else Lower(events, m - 1)
  }

  /** `io_close` with `io_close_select` */
  function Closed(t: Table, fd: nat): (r: Table)
    requires fd < |t.events|
  {
    Table(t.events[fd := BLANK], t.readers - {fd}, t.writers - {fd},
          if fd == t.maxfd then Lower(t.events, fd) else t.maxfd)
  }

  /** `io_event_get` asserts that the descriptor has an entry. */
  predicate Defined(t: Table, op: Op) { op.Create? || op.fd < |t.events| }

  function Step(t: Table, op: Op): (r: Table)
    requires Defined(t, op)
  {
    match op
    case Create(fd, read, write, id) => Created(t, fd, read, write, id)
    case SetCallback(fd, id) => t.(events := t.events[fd := t.events[fd].(callback := Fn(id))])
    case Add(fd, read, write) => Added(t, fd, read, write)
    case Del(fd, read, write) => Deleted(t, fd, read, write)
    case Close(fd) => Closed(t, fd)
  }

  /** The sets given to `select` agree with the event bits. */
  predicate Agree(t: Table) {
    && (forall fd :: fd in t.readers ==> fd < |t.events| && t.events[fd].read)
    && (forall fd :: fd in t.writers ==> fd < |t.events| && t.events[fd].write)
    && (forall fd :: 0 <= fd < |t.events| && t.events[fd].read ==> fd in t.readers)
    && (forall fd :: 0 <= fd < |t.events| && t.events[fd].write ==> fd in t.writers)
  }

  /** Only descriptors with a callback are watched. */
  predicate WatchedHooked(t: Table) {
    forall fd :: 0 <= fd < |t.events| && (t.events[fd].read || t.events[fd].write) ==> Hooked(t, fd)
  }

  /** `select_maxfd` is the largest descriptor with a callback. */
  predicate Top(t: Table) {
    && (forall fd | 0 <= fd < |t.events| :: Hooked(t, fd) ==> fd <= t.maxfd)
    && (t.maxfd == 0 || Hooked(t, t.maxfd))
  }

  predicate Good(t: Table) { Agree(t) && WatchedHooked(t) && Top(t) }

  /** When a step keeps the table good: a descriptor created again must be
      watched for at least what it was watched for before; a callback is only
      given to, and events only added to, a descriptor that has one. */
  predicate Proper(t: Table, op: Op)
    requires Defined(t, op)
  {
    match op
    case Create(fd, read, write, id) =>
      fd >= SETSIZE ||
      (&& (fd < |t.events| ==> (t.events[fd].read ==> read) && (t.events[fd].write ==> write))
       && (read || write || fd <= t.maxfd))
    case SetCallback(fd, id) => fd <= t.maxfd
    case Add(fd, read, write) => Hooked(t, fd) || !(read || write)
    case Del(_, _, _) => true
    case Close(_) => true
  }

  lemma CreateGood(t: Table, fd: nat, read: bool, write: bool, id: nat)
    requires Good(t)
    ensures Good(Created(t, fd, read, write, id)) <==> Proper(t, Create(fd, read, write, id))
  {
    if fd < SETSIZE {
      var r := Created(t, fd, read, write, id);
      assert r.events[fd] == Entry(Fn(id), read, write);
      assert forall j :: 0 <= j < |r.events| && j != fd ==>
        r.events[j] == if j < |t.events| then t.events[j] else BLANK;
      assert Hooked(r, fd);
      assert t.maxfd != 0 ==> Hooked(r, t.maxfd);
      if fd < |t.events| && t.events[fd].read && !read { assert fd in r.readers; }
      if fd < |t.events| && t.events[fd].write && !write { assert fd in r.writers; }
      assert forall j | 0 <= j < |r.events| && j != fd :: Hooked(r, j) ==> Hooked(t, j);
    }
  }

  /** Watching a descriptor for less by creating it again leaves it among the
      writers given to `select`. */
  lemma StaleWriter(size: nat, fd: nat, id: nat)
    requires fd < SETSIZE
    ensures var t := Created(Table(seq(size, _ => BLANK), {}, {}, 0), fd, true, true, id);
            var u := Created(t, fd, true, false, id);
            Good(t) && fd in u.writers && !u.events[fd].write && !Good(u)
  {
    var e := Table(seq(size, _ => BLANK), {}, {}, 0);
    CreateGood(e, fd, true, true, id);
    CreateGood(Created(e, fd, true, true, id), fd, true, false, id);
  }

  lemma AddGood(t: Table, fd: nat, read: bool, write: bool)
    requires Good(t) && fd < |t.events|
    ensures Good(Added(t, fd, read, write)) <==> Proper(t, Add(fd, read, write))
  {
    var r := Added(t, fd, read, write);
    assert forall j | 0 <= j < |t.events| :: Hooked(r, j) <==> Hooked(t, j);
    assert Hooked(t, fd) ==> fd <= t.maxfd;
  }

  lemma DelGood(t: Table, fd: nat, read: bool, write: bool)
    requires Good(t) && fd < |t.events|
    ensures Good(Deleted(t, fd, read, write))
  {
    var r := Deleted(t, fd, read, write);
    assert forall j | 0 <= j < |t.events| :: Hooked(r, j) <==> Hooked(t, j);
  }

  lemma CloseGood(t: Table, fd: nat)
    requires Good(t) && fd < |t.events|
    ensures Good(Closed(t, fd))
  {
    var r := Closed(t, fd);
    assert forall j | 0 <= j < |t.events| && j != fd :: Hooked(r, j) <==> Hooked(t, j);
  }

  lemma SetCallbackGood(t: Table, fd: nat, id: nat)
    requires Good(t) && fd < |t.events|
    ensures Good(Step(t, SetCallback(fd, id))) <==> fd <= t.maxfd
  {
    var r := Step(t, SetCallback(fd, id));
    assert forall j | 0 <= j < |t.events| && j != fd :: Hooked(r, j) <==> Hooked(t, j);
    assert Hooked(r, fd);
  }

  /** Each call keeps the table good exactly when it is used properly. */
  lemma StepGood(t: Table, op: Op)
    requires Good(t) && Defined(t, op)
    ensures Good(Step(t, op)) <==> Proper(t, op)
  {
    match op
    case Create(fd, read, write, id) => CreateGood(t, fd, read, write, id);
    case SetCallback(fd, id) => SetCallbackGood(t, fd, id);
    case Add(fd, read, write) => AddGood(t, fd, read, write);
    case Del(fd, read, write) => DelGood(t, fd, read, write);
    case Close(fd) => CloseGood(t, fd);
  }

  ghost predicate IsRun(states: seq<Table>, ops: seq<Op>) {
    && |states| == |ops| + 1
    && forall k :: 0 <= k < |ops| ==>
         Defined(states[k], ops[k]) && Proper(states[k], ops[k]) && states[k + 1] == Step(states[k], ops[k])
  }

  /** Every state reached from the empty table is good. */
  lemma {:induction false} RunGood(states: seq<Table>, ops: seq<Op>, size: nat)
    requires IsRun(states, ops)
    requires states[0] == Table(seq(size, _ => BLANK), {}, {}, 0)
    ensures forall k :: 0 <= k < |states| ==> Good(states[k])
    decreases |ops|
  {
    if ops != [] {
      var n := |ops| - 1;
      RunGood(states[..n + 1], ops[..n], size);
      assert Good(states[..n + 1][n]);
      StepGood(states[n], ops[n]);
      assert forall k :: 0 <= k <= n ==> states[..n + 1][k] == states[k];
    }
  }

  /** What is watched, as plain sets: which descriptors for reading, which for
      writing. */
  datatype Watch = Watch(readers: set<nat>, writers: set<nat>)

  function Put(s: set<nat>, fd: nat, on: bool): set<nat> { if on then s + {fd} else s }
  function Take(s: set<nat>, fd: nat, off: bool): set<nat> { if off then s - {fd} else s }

  function Watched(w: Watch, op: Op): Watch {
    match op
    case Create(fd, read, write, _) => if fd < 1024 then Watch(Put(w.readers, fd, read), Put(w.writers, fd, write)) else w
    case SetCallback(_, _) => w
    case Add(fd, read, write) => Watch(Put(w.readers, fd, read), Put(w.writers, fd, write))
    case Del(fd, read, write) => Watch(Take(w.readers, fd, read), Take(w.writers, fd, write))
    case Close(fd) => Watch(w.readers - {fd}, w.writers - {fd})
  }

  function WatchedAll(w: Watch, ops: seq<Op>): Watch {
    if ops == [] then w else Watched(WatchedAll(w, ops[..|ops| - 1]), ops[|ops| - 1])
  }

  lemma StepWatched(t: Table, op: Op)
    requires Good(t) && Defined(t, op) && Proper(t, op)
    ensures Watch(Step(t, op).readers, Step(t, op).writers) == Watched(Watch(t.readers, t.writers), op)
  {}

  lemma LastStep(states: seq<Table>, ops: seq<Op>, n: nat)
    requires IsRun(states, ops) && |ops| == n + 1
    ensures IsRun(states[..n + 1], ops[..n]) && states[..n + 1][n] == states[n] && states[..n + 1][0] == states[0]
    ensures Defined(states[n], ops[n]) && Proper(states[n], ops[n]) && states[n + 1] == Step(states[n], ops[n])
  {}

  lemma StepKeeps(t: Table, u: Table, op: Op, w: Watch)
    requires Good(t) && Defined(t, op) && Proper(t, op) && u == Step(t, op) && Watch(t.readers, t.writers) == w
    ensures Good(u) && Watch(u.readers, u.writers) == Watched(w, op)
  {
    StepGood(t, op);
    StepWatched(t, op);
  }

  /** Over every run the sets given to `select` are those of the plain reading of
      the calls, whatever the event bits said in between. */
  lemma {:induction false} RunWatched(states: seq<Table>, ops: seq<Op>, size: nat)
    requires IsRun(states, ops)
    requires states[0] == Table(seq(size, _ => BLANK), {}, {}, 0)
    ensures var t := states[|ops|]; Good(t) && Watch(t.readers, t.writers) == WatchedAll(Watch({}, {}), ops)
    decreases |ops|
  {
    if ops != [] {
      var n := |ops| - 1;
      LastStep(states, ops, n);
      RunWatched(states[..n + 1], ops[..n], size);
      StepKeeps(states[n], states[n + 1], ops[n], WatchedAll(Watch({}, {}), ops[..n]));
    }
  }

  /** Who has a callback: descriptors created or given one and not closed since. */
  lemma StepHooked(t: Table, op: Op, fd: nat)
    requires Good(t) && Defined(t, op)
    ensures Hooked(Step(t, op), fd) <==>
            match op
            case Create(d, _, _, _) => Hooked(t, fd) || (d == fd && fd < 1024)
            case SetCallback(d, _) => Hooked(t, fd) || d == fd
            case Add(_, _, _) => Hooked(t, fd)
            case Del(_, _, _) => Hooked(t, fd)
            case Close(d) => Hooked(t, fd) && d != fd
  {}

  /** A call made by a dispatch: the descriptor, the events reported for it and
      the callback. */
  datatype Call = Call(fd: nat, read: bool, write: bool, id: nat)

  /** The part of a reported set that the scan has still to reach. */
  function Ahead(s: set<nat>, i: nat): set<nat> { set j | j in s && j >= i }

  lemma AheadStep(s: set<nat>, i: nat)
    ensures |Ahead(s, i)| == |Ahead(s, i + 1)| + (if i in s then 1 else 0)
  {
    if i in s {
      assert Ahead(s, i) == Ahead(s, i + 1) + {i};
    } else {
      assert Ahead(s, i) == Ahead(s, i + 1);
    }
  }

  lemma NothingAhead(s: set<nat>, i: nat)
    ensures |Ahead(s, i)| == 0 <==> forall j :: j in s ==> j < i
  {
    if forall j :: j in s ==> j < i { assert Ahead(s, i) == {}; }
    else {
      var j :| j in s && j >= i;
      assert j in Ahead(s, i);
    }
  }

  /** How many reports the scan has still to reach. */
  function Pending(rd: set<nat>, wr: set<nat>, i: nat): nat { |Ahead(rd, i)| + |Ahead(wr, i)| }

  lemma PendingStep(rd: set<nat>, wr: set<nat>, i: nat)
    ensures Pending(rd, wr, i) ==
            Pending(rd, wr, i + 1) + (if i in rd then 1 else 0) + (if i in wr then 1 else 0)
  {
    AheadStep(rd, i);
    AheadStep(wr, i);
  }

  lemma PendingSome(rd: set<nat>, wr: set<nat>, i: nat)
    ensures Pending(rd, wr, i) == 0 <==> forall j :: j in rd || j in wr ==> j < i
    ensures i == 0 ==> Pending(rd, wr, i) == |rd| + |wr|
  {
    NothingAhead(rd, i);
    NothingAhead(wr, i);
    if i == 0 { assert Ahead(rd, 0) == rd && Ahead(wr, 0) == wr; }
  }

  /** The call due for descriptor `i` when the scan finds the table as `t`. */
  function Due(t: Table, i: nat, rd: set<nat>, wr: set<nat>): seq<Call> {
    if (i in rd || i in wr) && Hooked(t, i) then [Call(i, i in rd, i in wr, t.events[i].callback.id)] else []
  }

  /** The calls due for the descriptors below |visits|, each judged by the table
      as it was when the scan reached that descriptor. */
  function DueAll(visits: seq<Table>, rd: set<nat>, wr: set<nat>): seq<Call> {
    if visits == [] then [] else
      DueAll(visits[..|visits| - 1], rd, wr) + Due(visits[|visits| - 1], |visits| - 1, rd, wr)
  }

  /** Calls come in the order of descriptors, each for a reported descriptor that
      had a callback when it was visited, and none of those is left out. */
  lemma {:induction false} DueAllExact(visits: seq<Table>, rd: set<nat>, wr: set<nat>)
    ensures forall c :: c in DueAll(visits, rd, wr) ==>
              && c.fd < |visits| && Hooked(visits[c.fd], c.fd)
              && c == Call(c.fd, c.fd in rd, c.fd in wr, visits[c.fd].events[c.fd].callback.id)
              && (c.fd in rd || c.fd in wr)
    ensures forall j :: 0 <= j < |visits| && (j in rd || j in wr) && Hooked(visits[j], j) ==>
              Call(j, j in rd, j in wr, visits[j].events[j].callback.id) in DueAll(visits, rd, wr)
    ensures forall a, b :: 0 <= a < b < |DueAll(visits, rd, wr)| ==>
              DueAll(visits, rd, wr)[a].fd < DueAll(visits, rd, wr)[b].fd
  {
    if visits != [] {
      var n := |visits| - 1;
      var before, last := DueAll(visits[..n], rd, wr), Due(visits[n], n, rd, wr);
      DueAllExact(visits[..n], rd, wr);
      assert forall c :: c in DueAll(visits, rd, wr) <==> c in before || c in last;
      forall a, b | 0 <= a < b < |before + last| ensures (before + last)[a].fd < (before + last)[b].fd {
        assert before == [] || before[if a < |before| then a else 0] in before;
      }
    }
  }

  // ------------------------------------------------- the history of a scan

  /** A callback's use of the table: its calls in order, all proper. */
  predicate ProperRun(t: Table, ops: seq<Op>)
    decreases ops
  {
    ops == [] || (Defined(t, ops[0]) && Proper(t, ops[0]) && ProperRun(Step(t, ops[0]), ops[1..]))
  }

  function Steps(t: Table, ops: seq<Op>): Table
    requires ProperRun(t, ops)
    decreases ops
  {
    if ops == [] then t else Steps(Step(t, ops[0]), ops[1..])
  }

  lemma {:induction false} StepsSnoc(t: Table, ops: seq<Op>, op: Op)
    requires ProperRun(t, ops) && Defined(Steps(t, ops), op) && Proper(Steps(t, ops), op)
    ensures ProperRun(t, ops + [op]) && Steps(t, ops + [op]) == Step(Steps(t, ops), op)
    decreases ops
  {
    if ops == [] {
      assert ops + [op] == [op] && [op][1..] == [];
    } else {
      assert (ops + [op])[1..] == ops[1..] + [op];
      StepsSnoc(Step(t, ops[0]), ops[1..], op);
    }
  }

  /** The table a descriptor met: at its visit, or after the scan if the scan
      ended before it. */
  function Met(visits: seq<Table>, final: Table, j: nat): Table {
    if j < |visits| then visits[j] else final
  }

  /** The scan went from `start` to `final`: visit k saw `visits[k]`, and between
      it and the next only the callback due at k, if any, used the table. */
  predicate Scanned(start: Table, visits: seq<Table>, acts: seq<seq<Op>>, final: Table, rd: set<nat>, wr: set<nat>) {
    && |acts| == |visits|
    && Met(visits, final, 0) == start
    && forall k :: 0 <= k < |visits| ==> Between(visits[k], k, acts[k], Met(visits, final, k + 1), rd, wr)
  }

  predicate Between(t: Table, k: nat, ops: seq<Op>, u: Table, rd: set<nat>, wr: set<nat>) {
    && (Due(t, k, rd, wr) == [] ==> ops == [])
    && ProperRun(t, ops) && u == Steps(t, ops)
  }

  lemma ScannedMore(start: Table, visits: seq<Table>, acts: seq<seq<Op>>, t: Table, ops: seq<Op>, u: Table,
                    rd: set<nat>, wr: set<nat>)
    requires Scanned(start, visits, acts, t, rd, wr) && Between(t, |visits|, ops, u, rd, wr)
    ensures Scanned(start, visits + [t], acts + [ops], u, rd, wr)
    ensures DueAll(visits + [t], rd, wr) == DueAll(visits, rd, wr) + Due(t, |visits|, rd, wr)
  {
    var v, a := visits + [t], acts + [ops];
    assert v[..|visits|] == visits;
    forall k | 0 <= k < |v| ensures Between(v[k], k, a[k], Met(v, u, k + 1), rd, wr) {
      if k < |visits| {
        assert Between(visits[k], k, acts[k], Met(visits, t, k + 1), rd, wr);
        assert Met(v, u, k + 1) == Met(visits, t, k + 1);
      }
    }
  }

  /** A callback that does not close j leaves it with a callback. */
  lemma {:induction false} StaysHooked(t: Table, ops: seq<Op>, j: nat)
    requires ProperRun(t, ops) && Hooked(t, j) && Close(j) !in ops
    ensures Hooked(Steps(t, ops), j)
    decreases ops
  {
    if ops != [] {
      assert ops[0] in ops;
      assert forall op :: op in ops[1..] ==> op in ops;
      StaysHooked(Step(t, ops[0]), ops[1..], j);
    }
  }

  /** So does every callback up to the k-th visit. */
  lemma {:induction false} StillHooked(start: Table, visits: seq<Table>, acts: seq<seq<Op>>, final: Table,
                                       rd: set<nat>, wr: set<nat>, k: nat, j: nat)
    requires Scanned(start, visits, acts, final, rd, wr) && k <= |visits| && Hooked(start, j)
    requires forall i :: 0 <= i < k ==> Close(j) !in acts[i]
    ensures Hooked(Met(visits, final, k), j)
  {
    if k > 0 {
      StillHooked(start, visits, acts, final, rd, wr, k - 1, j);
      assert Between(visits[k - 1], k - 1, acts[k - 1], Met(visits, final, k), rd, wr);
      StaysHooked(visits[k - 1], acts[k - 1], j);
    }
  }

  /** The calls among `calls` for descriptor j. */
  function CallsFor(calls: seq<Call>, j: nat): seq<Call> {
    if calls == [] then [] else
      CallsFor(calls[..|calls| - 1], j) + (var c := calls[|calls| - 1]; if c.fd == j then [c] else [])
  }

  lemma CallsForMore(before: seq<Call>, last: seq<Call>, n: nat, j: nat)
    requires |last| <= 1 && (last != [] ==> last[0].fd == n)
    ensures CallsFor(before + last, j) == CallsFor(before, j) + (if n == j then last else [])
  {
    if last != [] { assert (before + last)[..|before|] == before; } else { assert before + last == before; }
  }

  lemma {:induction false} CallsForDue(visits: seq<Table>, rd: set<nat>, wr: set<nat>, j: nat)
    ensures CallsFor(DueAll(visits, rd, wr), j) == if j < |visits| then Due(visits[j], j, rd, wr) else []
    decreases |visits|
  {
    if visits != [] {
      var n := |visits| - 1;
      CallsForDue(visits[..n], rd, wr, j);
      CallsForMore(DueAll(visits[..n], rd, wr), Due(visits[n], n, rd, wr), n, j);
    }
  }

  /** What a dispatch does, read off its contract. A reported descriptor is
      called exactly once if it still has a callback when the scan meets it, and
      else not at all; nobody else is called. One that no callback of a lower
      descriptor closed does have its callback, so it is called. */
  lemma DispatchServes(start: Table, visits: seq<Table>, acts: seq<seq<Op>>, final: Table,
                       rd: set<nat>, wr: set<nat>, j: nat)
    requires Good(start) && rd <= start.readers && wr <= start.writers
    requires Scanned(start, visits, acts, final, rd, wr)
    requires forall i :: (i in rd || i in wr) && i >= |visits| ==> !Hooked(final, i)
    ensures CallsFor(DueAll(visits, rd, wr), j) == Due(Met(visits, final, j), j, rd, wr)
    ensures (j in rd || j in wr) && (forall i :: 0 <= i < j && i < |acts| ==> Close(j) !in acts[i]) ==>
              Hooked(Met(visits, final, j), j) && |CallsFor(DueAll(visits, rd, wr), j)| == 1
  {
    CallsForDue(visits, rd, wr, j);
    if (j in rd || j in wr) && (forall i :: 0 <= i < j && i < |acts| ==> Close(j) !in acts[i]) {
      assert Hooked(start, j);
      var k := if j < |visits| then j else |visits|;
      StillHooked(start, visits, acts, final, rd, wr, k, j);
    }
  }

  class EventTable {
    var events: seq<Entry>
    var readers: set<nat>
    var writers: set<nat>
    var maxfd: nat
    /** Calls made so far, in order. */
    ghost var calls: seq<Call>

    function State(): Table
      reads this
    {
      Table(events, readers, writers, maxfd)
    }

    constructor (size: nat)
      ensures State() == Table(seq(size, _ => BLANK), {}, {}, 0) && calls == []
    {
      events, readers, writers, maxfd, calls := seq(size, _ => BLANK), {}, {}, 0, [];
    }

    /** `io_event_add` */
    method EventAdd(fd: nat, read: bool, write: bool) returns (ok: bool)
      requires fd < |events|
      modifies this`events, this`readers, this`writers, this`maxfd
      ensures ok && State() == Added(old(State()), fd, read, write)
    {
      var e := events[fd];
      if (read ==> e.read) && (write ==> e.write) {
        return true;
      }
      events := events[fd := Entry(e.callback, e.read || read, e.write || write)];
      if fd > maxfd {
        maxfd := fd;
      }
      if read {
        readers := readers + {fd};
      }
      if write {
        writers := writers + {fd};
      }
      return true;
    }

    /** `io_event_create` */
    method EventCreate(fd: nat, read: bool, write: bool, id: nat) returns (ok: bool)
      modifies this`events, this`readers, this`writers, this`maxfd
      ensures ok <==> fd < SETSIZE
      ensures State() == Created(old(State()), fd, read, write, id)
    {
      if fd >= SETSIZE {
        return false;
      }
      events := Grown(events, fd);
      events := events[fd := Entry(Fn(id), false, false)];
      ok := EventAdd(fd, read, write);
      events := events[fd := Entry(Fn(id), read, write)];
    }

    /** `io_event_del` */
    method EventDel(fd: nat, read: bool, write: bool) returns (ok: bool)
      requires fd < |events|
      modifies this`events, this`readers, this`writers, this`maxfd
      ensures ok && State() == Deleted(old(State()), fd, read, write)
    {
      var e := events[fd];
      if !((read && e.read) || (write && e.write)) {
        return true;
      }
      events := events[fd := Entry(e.callback, e.read && !read, e.write && !write)];
      if write {
        writers := writers - {fd};
      }
      if read {
        readers := readers - {fd};
      }
      return true;
    }

    /** `io_close_select`: a closed top descriptor lowers the maximum. */
    method CloseSelect(fd: nat)
      requires fd < |events|
      modifies this`readers, this`writers, this`maxfd
      ensures readers == old(readers) - {fd} && writers == old(writers) - {fd}
      ensures maxfd == if fd == old(maxfd) then Lower(events, fd) else old(maxfd)
    {
      writers := writers - {fd};
      readers := readers - {fd};
      if fd == maxfd {
        while maxfd > 0
          modifies this`maxfd
          invariant maxfd <= fd && Lower(events, maxfd) == Lower(events, fd)
          decreases maxfd
        {
          maxfd := maxfd - 1;
          if events[maxfd].callback != Null {
            break;
          }
        }
      }
    }

    /** `io_close` */
    method IoClose(fd: nat)
      requires fd < |events|
      modifies this`events, this`readers, this`writers, this`maxfd
      ensures State() == Closed(old(State()), fd)
    {
      CloseSelect(fd);
      events := events[fd := BLANK];
    }

    /** `io_event_setcb` */
    method EventSetCallback(fd: nat, id: nat) returns (ok: bool)
      requires fd < |events|
      modifies this`events
      ensures ok && State() == Step(old(State()), SetCallback(fd, id))
    {
      events := events[fd := events[fd].(callback := Fn(id))];
      return true;
    }

    method Do(op: Op)
      requires Good(State()) && Defined(State(), op) && Proper(State(), op)
      modifies this`events, this`readers, this`writers, this`maxfd
      ensures State() == Step(old(State()), op) && Good(State())
      ensures |events| >= |old(events)|
    {
      StepGood(State(), op);
      match op {
        case Create(fd, read, write, id) => var ok := EventCreate(fd, read, write, id);
        case SetCallback(fd, id) => var ok := EventSetCallback(fd, id);
        case Add(fd, read, write) => var ok := EventAdd(fd, read, write);
        case Del(fd, read, write) => var ok := EventDel(fd, read, write);
        case Close(fd) => IoClose(fd);
      }
    }

    /** Any registered callback: it may use the table in any proper way. */
    method RunCallback() returns (ghost ops: seq<Op>)
      requires Good(State())
      modifies this`events, this`readers, this`writers, this`maxfd
      ensures Good(State()) && |events| >= |old(events)|
      ensures ProperRun(old(State()), ops) && State() == Steps(old(State()), ops)
    {
      var n: nat := *;
      var k := 0;
      ops := [];
      while k < n
        invariant Good(State()) && |events| >= |old(events)|
        invariant ProperRun(old(State()), ops) && State() == Steps(old(State()), ops)
      {
        var op: Op := *;
        if Defined(State(), op) && Proper(State(), op) {
          StepsSnoc(old(State()), ops, op);
          Do(op);
          ops := ops + [op];
        }
        k := k + 1;
      }
    }

    /** `io_docallback` */
    method DoCallback(fd: nat, read: bool, write: bool) returns (ghost ops: seq<Op>)
      requires Good(State()) && fd < |events|
      modifies this
      ensures Good(State()) && |events| >= |old(events)|
      ensures calls == old(calls) +
              (if old(Hooked(State(), fd)) then [Call(fd, read, write, old(events)[fd].callback.id)] else [])
      ensures ProperRun(old(State()), ops) && State() == Steps(old(State()), ops)
      ensures !old(Hooked(State(), fd)) ==> ops == []
    {
      ops := [];
      if events[fd].callback != Null {
        calls := calls + [Call(fd, read, write, events[fd].callback.id)];
        ops := RunCallback();
      }
    }

    /** One round of the scan in `io_dispatch_select`. */
    method Visit(i: nat, rd: set<nat>, wr: set<nat>, ready: int) returns (left: int, ghost ops: seq<Op>)
      requires Good(State()) && (i in rd || i in wr ==> i < |events|)
      modifies this
      ensures Good(State()) && |events| >= |old(events)|
      ensures calls == old(calls) + Due(old(State()), i, rd, wr)
      ensures left == ready - (if i in rd then 1 else 0) - (if i in wr then 1 else 0)
      ensures Between(old(State()), i, ops, State(), rd, wr)
    {
      left, ops := ready, [];
      var read, write := i in rd, i in wr;
      if read {
        left := left - 1;
      }
      if write {
        left := left - 1;
      }
      if read || write {
        ops := DoCallback(i, read, write);
      }
    }

    /** The same, with the history of the scan kept. */
    method Round(i: nat, rd: set<nat>, wr: set<nat>, ready: int,
                 ghost start: Table, ghost v: seq<Table>, ghost a: seq<seq<Op>>, ghost made: seq<Call>)
      returns (left: int, ghost visits: seq<Table>, ghost acts: seq<seq<Op>>)
      requires InScan(start, v, a, rd, wr, made, i, ready) && (i in rd || i in wr ==> i < |events|)
      modifies this
      ensures InScan(start, visits, acts, rd, wr, made, i + 1, left) && |events| >= |old(events)|
    {
      PendingStep(rd, wr, i);
      ghost var before, ops := State(), [];
      left, ops := Visit(i, rd, wr, ready);
      visits, acts := v + [before], a + [ops];
      ScannedMore(start, v, a, before, ops, State(), rd, wr);
    }

    /** `io_dispatch_select` on a result of `select`: the reported descriptors are
        among the watched ones. `visits` and `acts` are the history of the scan;
        of every reported descriptor that it does not reach, none has a callback
        left. `DispatchServes` says what this means. */
    method Dispatch(rd: set<nat>, wr: set<nat>)
      returns (ret: nat, ghost visits: seq<Table>, ghost acts: seq<seq<Op>>)
      requires Good(State()) && rd <= readers && wr <= writers
      modifies this
      ensures Good(State()) && ret == |rd| + |wr|
      ensures Scanned(old(State()), visits, acts, State(), rd, wr)
      ensures calls == old(calls) + DueAll(visits, rd, wr)
      ensures forall j :: (j in rd || j in wr) && j >= |visits| ==> !Hooked(State(), j)
    {
      ret, visits, acts := |rd| + |wr|, [], [];
      if ret <= 0 {
        return;
      }
      var ready: int := ret;
      ghost var top := maxfd;
      var i := 0;
      PendingSome(rd, wr, 0);
      while i <= maxfd
        invariant InScan(old(State()), visits, acts, rd, wr, old(calls), i, ready) && ready > 0
        invariant forall j :: j in rd || j in wr ==> j < |events| && j <= top
        decreases top + 1 - i
      {
        PendingSome(rd, wr, i);
        ready, visits, acts := Round(i, rd, wr, ready, old(State()), visits, acts, old(calls));
        i := i + 1;
        if ready <= 0 {
          break;
        }
      }
      PendingSome(rd, wr, i);
    }

    /** The scan has passed the descriptors below i, and `ready` reports are left. */
    ghost predicate InScan(start: Table, visits: seq<Table>, acts: seq<seq<Op>>, rd: set<nat>, wr: set<nat>,
                           made: seq<Call>, i: nat, ready: int)
      reads this
    {
      && Good(State()) && i == |visits| && Scanned(start, visits, acts, State(), rd, wr)
      && calls == made + DueAll(visits, rd, wr) && ready == Pending(rd, wr, i)
    }
  }
}
