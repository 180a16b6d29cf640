/**
  The select-loop reactor (class SelectLoop in src/netcon.cpp): a registry
  of connections keyed by descriptor, the wake-up deadline of the periodic
  task, and one iteration of doLoop as a step function.

  select(2), gettimeofday(2) and the connections' cando callbacks are oracle
  inputs: the readiness sets select reports, clock readings in microseconds,
  and the value each cando call returns.
 */
module SelectLoop {

  import opened Wrappers
  import opened Netcon

  /** Descriptors an fd_set can hold are 0 .. FD_SETSIZE-1 (1024 with glibc). */
  const FdSetSize: nat := 1024

  /** Timeout used when no periodic task is set: 10000 seconds. */
  const NoPeriodicSeconds: int := 10000

  type Registry = map<int, Netcon>

  /** One cando call's result, by descriptor and event: > 0 keeps the interest,
      0 or less drops it. */
  type Cando = (int, Event) -> int

  /** The reactor's state: the registry (m_polldata), the fairness cursor
      (m_placetostart), the periodic task (m_periodicmillis, whether a handler is
      installed, m_lasthdlcall as a clock reading) and the deferred
      return request (m_selectloopDoReturn, m_selectloopReturnValue). */
  datatype Loop = Loop(
    polldata: Registry,
    placeToStart: nat,
    periodicMillis: int,
    hasHandler: bool,
    lastCall: int,
    doReturn: bool,
    returnValue: int)

  /** A fresh reactor: empty registry, cursor at 0, no periodic task. */
  const Initial: Loop := Loop(map[], 0, 0, false, 0, false, 0)

  /** A select timeout: seconds and microseconds. */
  datatype TimeVal = TimeVal(sec: int, usec: int)

  function TotalMillis(tv: TimeVal): int
  {
    tv.sec * 1000 + tv.usec / 1000
  }

  function Lookup(reg: Registry, fd: int): Option<Netcon>
  {
    if fd in reg then Some(reg[fd]) else None
  }

  predicate Wants(c: Netcon)
  {
    c.events.read || c.events.write
  }

  /** fd would be placed in select's read or write set. */
  predicate Selectable(reg: Registry, fd: int)
  {
    0 <= fd < FdSetSize && fd in reg && Wants(reg[fd])
  }

  /** One more than the highest selectable descriptor below n, or 0 if there is none. */
  function TopWanted(reg: Registry, n: nat): (r: nat)
    requires n <= FdSetSize
    ensures r <= n
    ensures forall fd :: 0 <= fd < n && Selectable(reg, fd) ==> fd < r
    ensures r > 0 ==> Selectable(reg, r - 1)
  {
    if n == 0 then 0
    else if Selectable(reg, n - 1) then n
    else TopWanted(reg, n - 1)
  }

  /** The nfds argument doLoop passes to select: the maximum of fd + 1 over
      the descriptors that want an event. */
  function Nfds(reg: Registry): (n: nat)
    ensures n <= FdSetSize
    ensures forall fd :: Selectable(reg, fd) ==> fd < n
    ensures n > 0 ==> Selectable(reg, n - 1)
    ensures n == 0 <==> forall fd :: !Selectable(reg, fd)
  {
    TopWanted(reg, FdSetSize)
  }

  /** The read and write sets doLoop builds from the wanted-events masks. */
  function ReadSet(reg: Registry): set<int>
  {
    set fd | 0 <= fd < FdSetSize && fd in reg && reg[fd].events.read
  }

  function WriteSet(reg: Registry): set<int>
  {
    set fd | 0 <= fd < FdSetSize && fd in reg && reg[fd].events.write
  }

  // ---------------------------------------------------------------------
  // Periodic task

  /** SelectLoop::setperiodichandler; `now` is the clock reading taken when the
      interval is positive. */
  function SetPeriodicHandler(lp: Loop, hasHandler: bool, ms: int, now: int): (r: Loop)
    ensures r.periodicMillis == ms && r.hasHandler == hasHandler
    ensures r.lastCall == (if ms > 0 then now else lp.lastCall)
    ensures r.polldata == lp.polldata && r.placeToStart == lp.placeToStart && r.doReturn == lp.doReturn
  {
    lp.(hasHandler := hasHandler, periodicMillis := ms, lastCall := if ms > 0 then now else lp.lastCall)
  }

  /** A gettimeofday reading is a count of microseconds; tv_sec and tv_usec
      are its quotient and remainder by 10^6. */
  const MicrosPerSec: int := 1_000_000

  /** C's integer division, which truncates toward zero. */
  function CDiv(a: int, b: int): (q: int)
    requires b > 0
    ensures a >= 0 ==> q == a / b
    ensures a < 0 ==> q == -((-a) / b)
  {
    if a >= 0 then a / b else -((-a) / b)
  }

  /** MILLIS(since, now): the seconds fields' difference in milliseconds plus
      the microseconds fields' difference divided by 1000 with truncation.
      It is within a millisecond of the true elapsed time, either way. */
  function Millis(since: int, now: int): (m: int)
    ensures 1000 * m - 1000 < now - since < 1000 * m + 1000
  {
    var ds := now / MicrosPerSec - since / MicrosPerSec;
    var du := now % MicrosPerSec - since % MicrosPerSec;
    assert now - since == MicrosPerSec * ds + du;
    assert 1000 * CDiv(du, 1000) - 1000 < du < 1000 * CDiv(du, 1000) + 1000;
    ds * 1000 + CDiv(du, 1000)
  }

  /** Milliseconds left before the periodic task is due (m_periodicmillis - MILLIS(m_lasthdlcall, now)). */
  function Remaining(lp: Loop, now: int): int
  {
    lp.periodicMillis - Millis(lp.lastCall, now)
  }

  predicate Due(lp: Loop, now: int)
  {
    Remaining(lp, now) <= 0
  }

  /** SelectLoop::periodictimeout. The wait is never zero (zero would make
      select poll): 10000 s with no periodic task, else the time left before the
      task is due, at least 1 ms, split into seconds and microseconds. */
  function PeriodicTimeout(lp: Loop, now: int): (tv: TimeVal)
    ensures tv.sec >= 0 && 0 <= tv.usec < 1000000 && tv.usec % 1000 == 0
    ensures tv.sec > 0 || tv.usec > 0
    ensures lp.periodicMillis <= 0 ==> tv == TimeVal(NoPeriodicSeconds, 0)
    ensures lp.periodicMillis > 0 ==> TotalMillis(tv) == Max(1, Remaining(lp, now))
  {
    if lp.periodicMillis <= 0 then TimeVal(NoPeriodicSeconds, 0)
    else
      var millis := Max(1, Remaining(lp, now));
      TimeVal(millis / 1000, (millis % 1000) * 1000)
  }

  /** The deadline holds to the millisecond: before the handler is due the
      wait is the milliseconds MILLIS counts as left, and it ends within 1 ms
      of the last call plus the period; a handler already due waits 1 ms; and
      a wait that runs 1 ms past its length finds the handler due. */
  lemma DeadlineToTheMillisecond(lp: Loop, now: int, later: int)
    requires lp.periodicMillis > 0
    ensures !Due(lp, now) ==> TotalMillis(PeriodicTimeout(lp, now)) == Remaining(lp, now)
    ensures !Due(lp, now) ==>
      var wake := now + 1000 * TotalMillis(PeriodicTimeout(lp, now));
      var deadline := lp.lastCall + 1000 * lp.periodicMillis;
      deadline - 1000 < wake < deadline + 1000
    ensures Due(lp, now) ==> TotalMillis(PeriodicTimeout(lp, now)) == 1
    ensures later >= now + 1000 * TotalMillis(PeriodicTimeout(lp, now)) + 1000 ==> Due(lp, later)
  {
    var m1, m2 := Millis(lp.lastCall, now), Millis(lp.lastCall, later);
    assert 1000 * m2 + 1000 > later - lp.lastCall;
  }

  /** MILLIS truncates, so a wait that ends exactly at its length can find the
      handler 1 ms short of due: with the last call at 0.000999 s, a reading at
      1.000500 s and a period of 1500 ms, the wait is 500 ms, and at 1.500500 s
      MILLIS counts 1499 ms. */
  lemma WakeAtDeadlineCanBeEarly()
    ensures var lp := Initial.(periodicMillis := 1500, lastCall := 999);
      && TotalMillis(PeriodicTimeout(lp, 1_000_500)) == 500
      && !Due(lp, 1_000_500 + 500_000)
  {
    var lp := Initial.(periodicMillis := 1500, lastCall := 999);
    assert Millis(999, 1_000_500) == 1000;
    assert Millis(999, 1_500_500) == 1499;
  }

  /** SelectLoop::maybecallperiodic: (value returned, reactor after the call).
      `now` is the reading the test uses and `stamp` the second reading the
      call records. A due task restarts its period from `stamp` and returns
      the handler's result (0 without a handler); a task that is not due
      returns 1 and changes nothing. */
  function MaybeCallPeriodic(lp: Loop, now: int, stamp: int, handlerResult: int): (r: (int, Loop))
    ensures lp.periodicMillis <= 0 || !Due(lp, now) ==> r == (1, lp)
    ensures lp.periodicMillis > 0 && Due(lp, now) ==> r.1 == lp.(lastCall := stamp)
    ensures lp.periodicMillis > 0 && Due(lp, now) ==> r.0 == (if lp.hasHandler then handlerResult else 0)
  {
    if lp.periodicMillis <= 0 then (1, lp)
    else if Remaining(lp, now) <= 0 then
      (if lp.hasHandler then handlerResult else 0, lp.(lastCall := stamp))
    else (1, lp)
  }

  /** After the handler fires it is not due again for a period less the
      millisecond MILLIS may gain: a call within that time of the recorded
      reading returns 1 and leaves the reactor as it is. */
  lemma PeriodicFiresOncePerPeriod(lp: Loop, now: int, stamp: int, h: int, later: int, stamp': int, h': int)
    requires lp.periodicMillis > 0 && Due(lp, now)
    requires stamp <= later <= stamp + 1000 * (lp.periodicMillis - 1)
    ensures var fired := MaybeCallPeriodic(lp, now, stamp, h).1;
      MaybeCallPeriodic(fired, later, stamp', h') == (1, fired)
  {
    var m := Millis(stamp, later);
    assert 1000 * m - 1000 < later - stamp;
  }

  // ---------------------------------------------------------------------
  // Registry

  /** SelectLoop::addselcon: the connection's wanted events are set and it is
      mapped from its descriptor, replacing any previous entry; a null
      connection is refused. */
  function AddSelCon(lp: Loop, con: Option<Netcon>, events: Mask): (r: (int, Loop))
    ensures con.None? ==> r == (-1, lp)
    ensures con.Some? ==> r.0 == 0 && Lookup(r.1.polldata, con.value.fd) == Some(con.value.(events := events))
    ensures con.Some? ==> forall fd :: fd != con.value.fd ==> Lookup(r.1.polldata, fd) == Lookup(lp.polldata, fd)
    ensures r.1 == lp.(polldata := r.1.polldata)
  {
    match con
    case None => (-1, lp)
    case Some(c) => (0, lp.(polldata := lp.polldata[c.fd := c.(events := events)]))
  }

  /** SelectLoop::remselcon: erases the entry for the connection's descriptor;
      a null connection or an unregistered descriptor is refused. */
  function RemSelCon(lp: Loop, con: Option<Netcon>): (r: (int, Loop))
    ensures con.None? || con.value.fd !in lp.polldata ==> r == (-1, lp)
    ensures con.Some? && con.value.fd in lp.polldata ==>
      r.0 == 0 && con.value.fd !in r.1.polldata
      && forall fd :: fd != con.value.fd ==> Lookup(r.1.polldata, fd) == Lookup(lp.polldata, fd)
    ensures r.1 == lp.(polldata := r.1.polldata)
  {
    match con
    case None => (-1, lp)
    case Some(c) =>
      if c.fd !in lp.polldata then (-1, lp)
      else (0, lp.(polldata := lp.polldata - {c.fd}))
  }

  /** Removing what was just added restores the registry, less any entry the
      addition replaced. */
  lemma AddThenRemove(lp: Loop, c: Netcon, events: Mask)
    ensures RemSelCon(AddSelCon(lp, Some(c), events).1, Some(c)) == (0, lp.(polldata := lp.polldata - {c.fd}))
  {
    var added := AddSelCon(lp, Some(c), events).1;
    assert added.polldata - {c.fd} == lp.polldata - {c.fd};
  }

  // ---------------------------------------------------------------------
  // Fairness sweep

  /** The dispatch of one ready descriptor: each ready event's cando is called,
      and a result of 0 or less clears that event's bit. */
  function Dispatch(c: Netcon, fd: int, canRead: bool, canWrite: bool, cando: Cando): (r: Netcon)
    ensures r.events.read <==> c.events.read && !(canRead && cando(fd, ReadEvent) <= 0)
    ensures r.events.write <==> c.events.write && !(canWrite && cando(fd, WriteEvent) <= 0)
    ensures r == c.(events := r.events)
  {
    var afterRead := if canRead && cando(fd, ReadEvent) <= 0 then c.events.(read := false) else c.events;
    var afterWrite := if canWrite && cando(fd, WriteEvent) <= 0 then afterRead.(write := false) else afterRead;
    c.(events := afterWrite)
  }

  /** The registry and the cursor as the sweep goes. */
  datatype Sweeping = Sweeping(reg: Registry, place: nat)

  /** fd was reported ready and is still registered: it is serviced. */
  predicate Found(reg: Registry, fd: int, rd: set<int>, wr: set<int>)
  {
    (fd in rd || fd in wr) && fd in reg
  }

  /** What one serviced descriptor's entry becomes: dispatched, and erased if
      both bits are now clear. */
  function Settle(reg: Registry, fd: int, rd: set<int>, wr: set<int>, cando: Cando): (r: Option<Netcon>)
    ensures !Found(reg, fd, rd, wr) ==> r == Lookup(reg, fd)
    ensures Found(reg, fd, rd, wr) ==>
      var keepRead := reg[fd].events.read && !(fd in rd && cando(fd, ReadEvent) <= 0);
      var keepWrite := reg[fd].events.write && !(fd in wr && cando(fd, WriteEvent) <= 0);
      && (r.None? <==> !keepRead && !keepWrite)
      && (r.Some? ==> r.value == reg[fd].(events := Mask(keepRead, keepWrite)))
  {
    if !Found(reg, fd, rd, wr) then Lookup(reg, fd)
    else
      var c := Dispatch(reg[fd], fd, fd in rd, fd in wr, cando);
      if c.events.Empty() then None else Some(c)
  }

  /** The body of the sweep for one descriptor. */
  function Visit(st: Sweeping, fd: nat, rd: set<int>, wr: set<int>, cando: Cando): (r: Sweeping)
    ensures forall k :: Lookup(r.reg, k) == (if k == fd then Settle(st.reg, fd, rd, wr, cando) else Lookup(st.reg, k))
    ensures r.place == (if Found(st.reg, fd, rd, wr) then fd + 1 else st.place)
  {
    if !(fd in rd || fd in wr) then st
    else if fd !in st.reg then st
    else
      var c := Dispatch(st.reg[fd], fd, fd in rd, fd in wr, cando);
      Sweeping(if c.events.Empty() then st.reg - {fd} else st.reg[fd := c], fd + 1)
  }

  /** The sweep loop as written: i counts the visits, fd wraps to 0 at nfds. */
  function SweepLoop(st: Sweeping, nfds: nat, rd: set<int>, wr: set<int>, cando: Cando, i: nat, fd: nat): (r: Sweeping)
    requires fd <= nfds
    ensures forall k :: !(0 <= k < nfds) ==> Lookup(r.reg, k) == Lookup(st.reg, k)
    ensures st.place <= nfds ==> r.place <= nfds
    decreases nfds - i
  {
    if i >= nfds then st
    else
      var cur := if fd >= nfds then 0 else fd;
      SweepLoop(Visit(st, cur, rd, wr, cando), nfds, rd, wr, cando, i + 1, cur + 1)
  }

  /** The fairness sweep of doLoop: the cursor is reset to 0 when it is not
      below nfds, then nfds descriptors are visited from it. */
  function Sweep(st: Sweeping, nfds: nat, rd: set<int>, wr: set<int>, cando: Cando): (r: Sweeping)
    ensures forall k :: !(0 <= k < nfds) ==> Lookup(r.reg, k) == Lookup(st.reg, k)
    ensures r.place <= nfds
  {
    var start := if st.place >= nfds then 0 else st.place;
    SweepLoop(st.(place := start), nfds, rd, wr, cando, 0, start)
  }

  /** The order in which the sweep visits descriptors: every descriptor of
      [0, nfds) exactly once, from start, wrapping at nfds. */
  function VisitOrder(start: nat, nfds: nat): (order: seq<nat>)
    requires start < nfds
    ensures |order| == nfds && order[0] == start
    ensures forall i :: 0 <= i < nfds ==> order[i] < nfds
    ensures forall i, j :: 0 <= i < j < nfds ==> order[i] != order[j]
    ensures forall fd :: 0 <= fd < nfds ==> fd in order
  {
    var order := seq(nfds, k requires 0 <= k < nfds => if start + k < nfds then start + k else start + k - nfds);
    forall fd | 0 <= fd < nfds
      ensures fd in order
    {
      var k := if fd >= start then fd - start else fd + nfds - start;
      assert order[k] == fd;
    }
    order
  }

  /** Visiting a sequence of descriptors in order. */
  function SweepSeq(st: Sweeping, order: seq<nat>, rd: set<int>, wr: set<int>, cando: Cando): Sweeping
    decreases |order|
  {
    if |order| == 0 then st
    else SweepSeq(Visit(st, order[0], rd, wr, cando), order[1..], rd, wr, cando)
  }

  /** The loop as written visits exactly VisitOrder(start, nfds), in that order. */
  lemma {:induction false} LoopVisitsInOrder(st: Sweeping, nfds: nat, rd: set<int>, wr: set<int>, cando: Cando, start: nat, i: nat, fd: nat)
    requires start < nfds && i <= nfds && fd <= nfds
    requires i < nfds ==> (if fd >= nfds then 0 else fd) == VisitOrder(start, nfds)[i]
    ensures SweepLoop(st, nfds, rd, wr, cando, i, fd) == SweepSeq(st, VisitOrder(start, nfds)[i..], rd, wr, cando)
    decreases nfds - i
  {
    var order := VisitOrder(start, nfds);
    if i < nfds {
      var cur := if fd >= nfds then 0 else fd;
      assert order[i..][0] == cur;
      assert order[i..][1..] == order[i + 1..];
      LoopVisitsInOrder(Visit(st, cur, rd, wr, cando), nfds, rd, wr, cando, start, i + 1, cur + 1);
    }
  }

  predicate Distinct(order: seq<nat>)
  {
    forall i, j :: 0 <= i < j < |order| ==> order[i] != order[j]
  }

  /** order[j] is the last descriptor of order the sweep services. */
  predicate LastFound(reg: Registry, order: seq<nat>, rd: set<int>, wr: set<int>, j: int)
  {
    && 0 <= j < |order| && Found(reg, order[j], rd, wr)
    && forall j' :: j < j' < |order| ==> !Found(reg, order[j'], rd, wr)
  }

  /** Visiting distinct descriptors: each visited entry is settled once against
      the registry as it was before the sweep, other entries are untouched, and
      the cursor ends one past the last descriptor serviced, or where it was. */
  lemma {:induction false} SweepSeqEffect(st: Sweeping, order: seq<nat>, rd: set<int>, wr: set<int>, cando: Cando)
    requires Distinct(order)
    ensures var r := SweepSeq(st, order, rd, wr, cando);
      forall k :: Lookup(r.reg, k) == (if k in order then Settle(st.reg, k, rd, wr, cando) else Lookup(st.reg, k))
    ensures var r := SweepSeq(st, order, rd, wr, cando);
      (forall j :: 0 <= j < |order| ==> !Found(st.reg, order[j], rd, wr)) ==> r.place == st.place
    ensures var r := SweepSeq(st, order, rd, wr, cando);
      forall j :: LastFound(st.reg, order, rd, wr, j) ==> r.place == order[j] + 1
    decreases |order|
  {
    if |order| > 0 {
      var x := order[0];
      var rest := order[1..];
      var st1 := Visit(st, x, rd, wr, cando);
      assert Distinct(rest);
      assert x !in rest;
      SweepSeqEffect(st1, rest, rd, wr, cando);
      var r := SweepSeq(st, order, rd, wr, cando);
      assert r == SweepSeq(st1, rest, rd, wr, cando);
      // Entries other than x are the same in st1 and st, so they settle alike.
      forall k | k != x
        ensures Settle(st1.reg, k, rd, wr, cando) == Settle(st.reg, k, rd, wr, cando)
        ensures Found(st1.reg, k, rd, wr) == Found(st.reg, k, rd, wr)
      {
        assert Lookup(st1.reg, k) == Lookup(st.reg, k);
      }
      forall k
        ensures Lookup(r.reg, k) == (if k in order then Settle(st.reg, k, rd, wr, cando) else Lookup(st.reg, k))
      {
        if k == x {
          assert k !in rest;
        } else {
          assert (k in order) == (k in rest);
        }
      }
      forall j | LastFound(st.reg, order, rd, wr, j)
        ensures r.place == order[j] + 1
      {
        if j == 0 {
          assert forall j' :: 0 <= j' < |rest| ==> !Found(st1.reg, rest[j'], rd, wr) by {
            forall j' | 0 <= j' < |rest|
              ensures !Found(st1.reg, rest[j'], rd, wr)
            {
              assert rest[j'] == order[j' + 1];
            }
          }
        } else {
          assert LastFound(st1.reg, rest, rd, wr, j - 1) by {
            assert rest[j - 1] == order[j];
            forall j' | j - 1 < j' < |rest|
              ensures !Found(st1.reg, rest[j'], rd, wr)
            {
              assert rest[j'] == order[j' + 1];
            }
          }
        }
      }
      if forall j :: 0 <= j < |order| ==> !Found(st.reg, order[j], rd, wr) {
        assert !Found(st.reg, order[0], rd, wr);
        forall j' | 0 <= j' < |rest|
          ensures !Found(st1.reg, rest[j'], rd, wr)
        {
          assert rest[j'] == order[j' + 1];
        }
      }
    }
  }

  /** The fairness sweep of doLoop. Each descriptor in [0, nfds) is visited
      once, starting at the cursor (reset to 0 when not below nfds) and
      wrapping; each serviced entry is settled (a bit is cleared exactly when its
      cando returned 0 or less, the entry erased exactly when both bits are
      clear); entries outside [0, nfds) are untouched; the cursor ends one past
      the last descriptor serviced in visiting order, or at its start position
      when none was serviced. */
  lemma SweepEffect(st: Sweeping, nfds: nat, rd: set<int>, wr: set<int>, cando: Cando)
    requires nfds > 0
    ensures var start := if st.place >= nfds then 0 else st.place;
      var order := VisitOrder(start, nfds);
      var r := Sweep(st, nfds, rd, wr, cando);
      && (forall k :: Lookup(r.reg, k) == (if 0 <= k < nfds then Settle(st.reg, k, rd, wr, cando) else Lookup(st.reg, k)))
      && ((forall fd :: 0 <= fd < nfds ==> !Found(st.reg, fd, rd, wr)) ==> r.place == start)
      && (forall j :: LastFound(st.reg, order, rd, wr, j) ==> r.place == order[j] + 1)
      && r.place <= nfds
  {
    var start := if st.place >= nfds then 0 else st.place;
    var order := VisitOrder(start, nfds);
    var st0 := st.(place := start);
    LoopVisitsInOrder(st0, nfds, rd, wr, cando, start, 0, start);
    assert order[0..] == order;
    SweepSeqEffect(st0, order, rd, wr, cando);
    var r := Sweep(st, nfds, rd, wr, cando);
    forall k
      ensures (k in order) == (0 <= k < nfds)
    {
      if k in order {
        var i :| 0 <= i < |order| && order[i] == k;
      }
    }
    if forall fd :: 0 <= fd < nfds ==> !Found(st.reg, fd, rd, wr) {
      assert forall j :: 0 <= j < |order| ==> !Found(st0.reg, order[j], rd, wr);
    } else {
      var fd :| 0 <= fd < nfds && Found(st.reg, fd, rd, wr);
      LastFoundExists(st0.reg, order, rd, wr, fd);
    }
  }

  /** When some descriptor of the order is serviced, a last one exists. */
  lemma LastFoundExists(reg: Registry, order: seq<nat>, rd: set<int>, wr: set<int>, fd: nat)
    requires fd in order && Found(reg, fd, rd, wr)
    ensures exists j :: LastFound(reg, order, rd, wr, j)
    decreases |order|
  {
    var n := |order|;
    if Found(reg, order[n - 1], rd, wr) {
      assert LastFound(reg, order, rd, wr, n - 1);
    } else {
      var front := order[..n - 1];
      assert fd in front;
      LastFoundExists(reg, front, rd, wr, fd);
      var j :| LastFound(reg, front, rd, wr, j);
      assert LastFound(reg, order, rd, wr, j);
    }
  }

  // ---------------------------------------------------------------------
  // One iteration of doLoop

  /** What select reports: failure, or the descriptors ready to read and write. */
  datatype Readiness = WaitFailed | Ready(rd: set<int>, wr: set<int>)

  /** The oracle inputs of one iteration: the clock before the wait, select's
      report, the clock when maybecallperiodic tests the deadline and the
      reading it then records, the periodic handler's result, the cando
      results, and the return request (m_selectloopDoReturn with its value) a
      callback may post while it runs. */
  datatype Tick = Tick(
    clockBefore: int,
    wait: Readiness,
    clockAfter: int,
    stamp: int,
    handlerResult: int,
    cando: Cando,
    returnRequest: Option<int>)

  datatype Exit = Stay | Leave(code: int)

  /** How an iteration ends, the reactor afterwards, and the timeout handed to
      select (None when the iteration ended before waiting). */
  datatype StepResult = StepResult(exit: Exit, loop: Loop, timeout: Option<TimeVal>)

  /** The periodic handler is due and installed: the iteration calls it. */
  predicate HandlerCalled(lp: Loop, t: Tick)
  {
    lp.periodicMillis > 0 && Due(lp, t.clockAfter) && lp.hasHandler
  }

  /** The periodic task, when due, ends the loop (its result, or 0 without a handler, is 0 or less). */
  predicate PeriodicEnds(lp: Loop, t: Tick)
  {
    lp.periodicMillis > 0 && Due(lp, t.clockAfter) && (!lp.hasHandler || t.handlerResult <= 0)
  }

  /** Some callback of the iteration ran after select reported: the periodic
      handler, or (when the periodic task let the loop go on) the cando of a
      reported descriptor. Only then can a return request be posted. */
  predicate CallbacksRan(lp: Loop, t: Tick)
  {
    && !lp.doReturn && Nfds(lp.polldata) > 0 && t.wait.Ready?
    && (HandlerCalled(lp, t)
        || (!PeriodicEnds(lp, t) && (ReadSet(lp.polldata) * t.wait.rd != {} || WriteSet(lp.polldata) * t.wait.wr != {})))
  }

  /** One pass of the body of doLoop's for(;;). */
  function Step(lp: Loop, t: Tick): (r: StepResult)
    ensures lp.doReturn ==> r == StepResult(Leave(lp.returnValue), lp.(doReturn := false), None)
    ensures !lp.doReturn && (forall fd :: !Selectable(lp.polldata, fd)) ==>
      r.exit == Leave(0) && r.loop == lp.(polldata := map[]) && r.timeout.None?
    ensures !lp.doReturn && (exists fd :: Selectable(lp.polldata, fd)) ==>
      r.timeout == Some(PeriodicTimeout(lp, t.clockBefore))
    ensures r.timeout.Some? ==> r.timeout.value.sec > 0 || r.timeout.value.usec > 0
    ensures r.timeout.Some? && t.wait.WaitFailed? ==> r == StepResult(Leave(-1), lp, r.timeout)
    ensures r.timeout.Some? && t.wait.Ready? ==> (r.exit == Leave(1) <==> PeriodicEnds(lp, t))
    ensures r.timeout.Some? && t.wait.Ready? && !PeriodicEnds(lp, t) ==> r.exit.Stay?
    ensures r.timeout.Some? && t.wait.Ready? && !(lp.periodicMillis > 0 && Due(lp, t.clockAfter)) ==>
      r.loop.lastCall == lp.lastCall
    ensures r.timeout.Some? && t.wait.Ready? && lp.periodicMillis > 0 && Due(lp, t.clockAfter) ==>
      r.loop.lastCall == t.stamp
    ensures r.exit.Leave? ==> r.exit.code in {lp.returnValue, 0, -1, 1}
    ensures r.exit.Stay? ==> r.timeout.Some? && t.wait.Ready?
    ensures !lp.doReturn ==> (r.loop.doReturn <==> CallbacksRan(lp, t) && t.returnRequest.Some?)
    ensures !lp.doReturn && r.loop.doReturn ==> r.loop.returnValue == t.returnRequest.value
    ensures r.loop.periodicMillis == lp.periodicMillis && r.loop.hasHandler == lp.hasHandler
  {
    if lp.doReturn then StepResult(Leave(lp.returnValue), lp.(doReturn := false), None)
    else
      var nfds := Nfds(lp.polldata);
      if nfds == 0 then StepResult(Leave(0), lp.(polldata := map[]), None)
      else
        var tv := PeriodicTimeout(lp, t.clockBefore);
        match t.wait
        case WaitFailed => StepResult(Leave(-1), lp, Some(tv))
        case Ready(rdo, wro) =>
          // select only reports descriptors it was asked about
          var rd := ReadSet(lp.polldata) * rdo;
          var wr := WriteSet(lp.polldata) * wro;
          var called := if lp.periodicMillis > 0 then MaybeCallPeriodic(lp, t.clockAfter, t.stamp, t.handlerResult) else (1, lp);
          var ran := HandlerCalled(lp, t) || (called.0 > 0 && (rd != {} || wr != {}));
          var lp1 := if ran && t.returnRequest.Some?
            then called.1.(doReturn := true, returnValue := t.returnRequest.value)
            else called.1;
          if called.0 <= 0 then StepResult(Leave(1), lp1, Some(tv))
          else if rd == {} && wr == {} then StepResult(Stay, lp1, Some(tv))
          else
            var s := Sweep(Sweeping(lp1.polldata, lp1.placeToStart), nfds, rd, wr, t.cando);
            StepResult(Stay, lp1.(polldata := s.reg, placeToStart := s.place), Some(tv))
  }

  /** The readiness sets of an iteration, as select reports them back. */
  function ReadyRead(lp: Loop, t: Tick): set<int>
    requires t.wait.Ready?
  {
    ReadSet(lp.polldata) * t.wait.rd
  }

  function ReadyWrite(lp: Loop, t: Tick): set<int>
    requires t.wait.Ready?
  {
    WriteSet(lp.polldata) * t.wait.wr
  }

  /** An iteration that sweeps services exactly the ready registered connections:
      each is settled, nothing else in the registry changes, and the cursor moves
      one past the last one serviced in visiting order. */
  lemma StepSweeps(lp: Loop, t: Tick)
    requires !lp.doReturn && t.wait.Ready? && Step(lp, t).exit.Stay?
    ensures var r := Step(lp, t).loop;
      forall fd :: Lookup(r.polldata, fd) == Settle(lp.polldata, fd, ReadyRead(lp, t), ReadyWrite(lp, t), t.cando)
    ensures var r := Step(lp, t).loop;
      (forall fd :: !Found(lp.polldata, fd, ReadyRead(lp, t), ReadyWrite(lp, t))) ==> r.placeToStart == lp.placeToStart
    ensures var r := Step(lp, t).loop;
      var nfds := Nfds(lp.polldata);
      var start := if lp.placeToStart >= nfds then 0 else lp.placeToStart;
      forall j :: LastFound(lp.polldata, VisitOrder(start, nfds), ReadyRead(lp, t), ReadyWrite(lp, t), j) ==>
        r.placeToStart == VisitOrder(start, nfds)[j] + 1
  {
    var nfds := Nfds(lp.polldata);
    var rd := ReadyRead(lp, t);
    var wr := ReadyWrite(lp, t);
    var lp1 := if lp.periodicMillis > 0 then MaybeCallPeriodic(lp, t.clockAfter, t.stamp, t.handlerResult).1 else lp;
    assert lp1.polldata == lp.polldata && lp1.placeToStart == lp.placeToStart;
    // Every reported descriptor wants an event, so it lies below nfds.
    forall fd | fd in rd || fd in wr
      ensures 0 <= fd < nfds
    {
      assert Selectable(lp.polldata, fd);
    }
    if rd == {} && wr == {} {
      forall fd
        ensures Lookup(lp.polldata, fd) == Settle(lp.polldata, fd, rd, wr, t.cando)
      {
        assert !(fd in rd || fd in wr);
      }
    } else {
      SweepEffect(Sweeping(lp.polldata, lp.placeToStart), nfds, rd, wr, t.cando);
      forall fd | !(0 <= fd < nfds)
        ensures Lookup(lp.polldata, fd) == Settle(lp.polldata, fd, rd, wr, t.cando)
      {
        assert !(fd in rd || fd in wr);
      }
      // Something was reported, and whatever is reported is registered.
      var fd :| fd in rd || fd in wr;
      assert Found(lp.polldata, fd, rd, wr);
    }
  }

  /** The reactor never gains connections or wanted events in an iteration: every
      surviving entry is the same connection with a subset of its bits. */
  lemma StepOnlyShrinks(lp: Loop, t: Tick)
    ensures var r := Step(lp, t).loop;
      forall fd :: fd in r.polldata ==>
        && fd in lp.polldata
        && r.polldata[fd] == lp.polldata[fd].(events := r.polldata[fd].events)
        && (r.polldata[fd].events.read ==> lp.polldata[fd].events.read)
        && (r.polldata[fd].events.write ==> lp.polldata[fd].events.write)
  {
    if !lp.doReturn && t.wait.Ready? && Step(lp, t).exit.Stay? {
      StepSweeps(lp, t);
      var r := Step(lp, t).loop;
      forall fd | fd in r.polldata
        ensures fd in lp.polldata && r.polldata[fd] == lp.polldata[fd].(events := r.polldata[fd].events)
        ensures r.polldata[fd].events.read ==> lp.polldata[fd].events.read
        ensures r.polldata[fd].events.write ==> lp.polldata[fd].events.write
      {
        assert Lookup(r.polldata, fd) == Settle(lp.polldata, fd, ReadyRead(lp, t), ReadyWrite(lp, t), t.cando);
      }
    }
  }

  /** A connection registered with no wanted events, alone in the reactor, makes
      the loop return 0 at once without waiting. */
  lemma EmptyMaskReturnsZero(c: Netcon, t: Tick)
    ensures var lp := AddSelCon(Initial, Some(c), Mask(false, false)).1;
      Step(lp, t) == StepResult(Leave(0), lp.(polldata := map[]), None)
  {
    var lp := AddSelCon(Initial, Some(c), Mask(false, false)).1;
    assert forall fd :: fd in lp.polldata ==> fd == c.fd && !Wants(lp.polldata[fd]);
  }

  /** A handler returning 0 for READ on a connection that also wants WRITE leaves
      it registered for WRITE only; WRITE returning 0 later removes it. */
  lemma ReadDoneKeepsWriter(reg: Registry, fd: nat, cando: Cando)
    requires fd in reg && reg[fd].events == Mask(true, true)
    requires cando(fd, ReadEvent) == 0 && cando(fd, WriteEvent) == 0
    ensures Settle(reg, fd, {fd}, {}, cando) == Some(reg[fd].(events := Mask(false, true)))
    ensures var after := reg[fd := reg[fd].(events := Mask(false, true))];
      Settle(after, fd, {}, {fd}, cando) == None
  {
  }

  /** A return request posted by a callback is honoured at the top of the
      next iteration, whatever it then sees: the loop leaves with the posted
      value and clears the request, touching nothing else. */
  lemma ReturnRequestHonoured(lp: Loop, t: Tick, next: Tick)
    requires CallbacksRan(lp, t) && t.returnRequest.Some?
    ensures var r := Step(lp, t);
      r.loop.doReturn
      && Step(r.loop, next) == StepResult(Leave(t.returnRequest.value), r.loop.(doReturn := false), None)
  {
  }
}
