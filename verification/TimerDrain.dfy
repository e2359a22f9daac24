/**
 What one run of the drain loop does: when it ends, what it signals and in which order,
 and what it leaves behind, timer by timer.
 */
module TimerDrain {
  import opened Words
  import opened TimerModel

  // ------------------------------------------------------------- termination

  /** n rounds of the loop of signal_clients, fewer if it ends before. */
  ghost function Rounds(s: Server, n: nat): Server
    requires WellFormed(s)
    decreases n
  {
    if n == 0 || !Due(s) then s
    else
      FireKeeps(s);
      Rounds(Fire(s), n - 1)
  }

  ghost predicate StopsAfter(s: Server, n: nat)
    requires WellFormed(s)
  {
    !Due(Rounds(s, n))
  }

  /** A due timer with period 0 keeps the loop going for ever. */
  lemma {:induction false} ZeroPeriodStaysDue(s: Server, k: Key, n: nat)
    requires WellFormed(s) && DuePeriodic(s.cells, k, s.now)
    requires s.cells[k].period == 0 && s.cells[k].deadline < TWO64
    ensures !StopsAfter(s, n)
    decreases n
  {
    DueTimerMakesDue(s, k);
    if n > 0 {
      FireKeeps(s);
      FireKeepsZeroPeriod(s, k);
      ZeroPeriodStaysDue(Fire(s), k, n - 1);
    }
  }

  lemma DueTimerMakesDue(s: Server, k: Key)
    requires WellFormed(s) && Active(s.cells, k) && s.cells[k].deadline <= s.now
    ensures Due(s)
  {
    assert k in s.queue;
    var i :| 0 <= i < |s.queue| && s.queue[i] == k;
    assert DeadlineOf(s.cells, s.queue[0]) <= DeadlineOf(s.cells, s.queue[i]);
  }

  lemma FireKeepsZeroPeriod(s: Server, k: Key)
    requires WellFormed(s) && Due(s) && DuePeriodic(s.cells, k, s.now)
    requires s.cells[k].period == 0 && s.cells[k].deadline < TWO64
    ensures k in Fire(s).cells && Fire(s).cells[k] == s.cells[k] && Fire(s).now == s.now
  {
    assert s.queue[0] in s.queue;
  }

  lemma {:induction false} RoundsDrain(s: Server)
    requires WellFormed(s) && DrainSafe(s)
    ensures Rounds(s, Measure(s)) == Drain(s)
    decreases Measure(s)
  {
    if Due(s) {
      FireKeeps(s);
      FireMeasure(s);
      RoundsDrain(Fire(s));
    }
  }

  /** The drain loop ends if and only if no due timer has period 0. */
  lemma DrainEndsIff(s: Server)
    requires WellFormed(s) && NoWrap(s)
    ensures PositivePeriods(s) <==> exists n :: StopsAfter(s, n)
  {
    if PositivePeriods(s) {
      RoundsDrain(s);
      DrainKeeps(s);
      assert StopsAfter(s, Measure(s));
    } else {
      var k :| DuePeriodic(s.cells, k, s.now) && s.cells[k].period == 0;
      forall n: nat
        ensures !StopsAfter(s, n)
      {
        ZeroPeriodStaysDue(s, k, n);
      }
    }
  }

  /** The loop ends. */
  ghost predicate Ends(s: Server)
    requires WellFormed(s)
  {
    exists n :: StopsAfter(s, n)
  }

  lemma {:induction false} RoundsKeep(s: Server, n: nat)
    requires WellFormed(s)
    ensures WellFormed(Rounds(s, n))
    decreases n
  {
    if n > 0 && Due(s) {
      FireKeeps(s);
      RoundsKeep(Fire(s), n - 1);
    }
  }

  /** The state in which a loop that ends leaves the server, whether or not sums wrap on the way. */
  ghost function Drained(s: Server): (r: Server)
    requires WellFormed(s) && Ends(s)
    ensures WellFormed(r) && !Due(r)
  {
    var n :| StopsAfter(s, n);
    RoundsKeep(s, n);
    Rounds(s, n)
  }

  lemma {:induction false} RoundsAgree(s: Server, n: nat, m: nat)
    requires WellFormed(s) && StopsAfter(s, n) && StopsAfter(s, m)
    ensures Rounds(s, n) == Rounds(s, m)
    decreases n
  {
    if Due(s) {
      FireKeeps(s);
      RoundsAgree(Fire(s), n - 1, m - 1);
    }
  }

  lemma DrainedIs(s: Server, n: nat)
    requires WellFormed(s) && StopsAfter(s, n)
    ensures Ends(s) && Drained(s) == Rounds(s, n)
  {
    var m :| StopsAfter(s, m) && Drained(s) == Rounds(s, m);
    RoundsAgree(s, n, m);
  }

  /** At most n more rounds end in r. */
  ghost predicate Reaches(s: Server, n: nat, r: Server)
    decreases n
  {
    && WellFormed(s)
    && if Due(s) then 0 < n && Reaches(Fire(s), n - 1, r) else s == r
  }

  lemma {:induction false} RoundsReach(s: Server, n: nat)
    requires WellFormed(s) && StopsAfter(s, n)
    ensures Reaches(s, n, Rounds(s, n))
    decreases n
  {
    if Due(s) {
      FireKeeps(s);
      RoundsReach(Fire(s), n - 1);
    }
  }

  lemma ReachesStep(s: Server, n: nat, r: Server)
    requires Reaches(s, n, r) && Due(s)
    ensures 0 < n && Reaches(Fire(s), n - 1, r) && Fire(s).now == s.now
  {
  }

  /** When the loop is safe, it ends with what Drain says. */
  lemma SafeEnds(s: Server)
    requires WellFormed(s) && DrainSafe(s)
    ensures Ends(s) && Drained(s) == Drain(s)
  {
    RoundsDrain(s);
    DrainKeeps(s);
    DrainedIs(s, Measure(s));
  }

  lemma {:induction false} DrainKeeps(s: Server)
    requires WellFormed(s) && DrainSafe(s)
    ensures var r := Drain(s);
            && WellFormed(r) && !Due(r)
            && r.now == s.now && r.perClient == s.perClient && |r.words| == |s.words|
            && r.cells.Keys == s.cells.Keys
    decreases Measure(s)
  {
    if Due(s) {
      FireKeeps(s);
      FireMeasure(s);
      DrainKeeps(Fire(s));
      assert Fire(s).cells.Keys == s.cells.Keys by { FireQueue(s); }
    }
  }

  /** After a drain every active timer lies in the future. */
  lemma NothingDue(s: Server, k: Key)
    requires WellFormed(s) && !Due(s) && Active(s.cells, k)
    ensures s.now < s.cells[k].deadline
  {
    if s.cells[k].deadline <= s.now {
      DueTimerMakesDue(s, k);
    }
  }

  // ----------------------------------------------------------------- signals

  /** The signals given by the loop, in order. */
  ghost function Burst(s: Server): seq<Event>
    requires WellFormed(s) && DrainSafe(s)
    decreases Measure(s)
  {
    if Due(s) then
      FireKeeps(s);
      FireMeasure(s);
      [FiredNow(s, s.queue[0])] + Burst(Fire(s))
    else []
  }

  lemma FireLog(s: Server)
    requires WellFormed(s) && Due(s)
    ensures Fire(s).log == s.log + [FiredNow(s, s.queue[0])]
  {
    assert s.queue[0] in s.queue;
  }

  /** The loop appends its signals to the log, exactly as many as the measure says. */
  lemma {:induction false} DrainLog(s: Server)
    requires WellFormed(s) && DrainSafe(s)
    ensures Drain(s).log == s.log + Burst(s)
    ensures |Burst(s)| == Measure(s)
    decreases Measure(s)
  {
    if Due(s) {
      FireKeeps(s);
      FireMeasure(s);
      DrainLog(Fire(s));
      FireLog(s);
    } else {
      assert Measure(s) == 0 by { NoneDueNoMeasure(s, s.queue); }
    }
  }

  lemma {:induction false} NoneDueNoMeasure(s: Server, q: seq<Key>)
    requires WellFormed(s) && !Due(s)
    requires forall k | k in q :: k in s.queue
    ensures PendingSum(s.cells, q, s.now) == 0
  {
    if q != [] {
      assert q[0] in s.queue;
      NothingDue(s, q[0]);
      NoneDueNoMeasure(s, q[1..]);
    }
  }

  ghost predicate InOrder(es: seq<Event>) {
    forall i, j | 0 <= i < j < |es| :: es[i].Fired? && es[j].Fired? && es[i].deadline <= es[j].deadline
  }

  ghost predicate QueueFrom(s: Server, d: nat) {
    forall i | 0 <= i < |s.queue| :: d <= DeadlineOf(s.cells, s.queue[i])
  }

  /** No signal is early, and signals come in the order of their deadlines. */
  lemma {:induction false} BurstInOrder(s: Server, d: nat)
    requires WellFormed(s) && DrainSafe(s) && QueueFrom(s, d)
    ensures InOrder(Burst(s))
    ensures forall e | e in Burst(s) :: e.Fired? && d <= e.deadline <= e.at == s.now
    decreases Measure(s)
  {
    if Due(s) {
      FireKeeps(s);
      FireMeasure(s);
      var first := DeadlineOf(s.cells, s.queue[0]);
      FireRaises(s);
      BurstInOrder(Fire(s), first);
      InOrderCons(FiredNow(s, s.queue[0]), Burst(Fire(s)));
    }
  }

  lemma InOrderCons(e: Event, es: seq<Event>)
    requires e.Fired? && InOrder(es) && forall x | x in es :: x.Fired? && e.deadline <= x.deadline
    ensures InOrder([e] + es)
  {
    assert forall i | 0 <= i < |es| :: es[i] in es;
  }

  /** Signals are given for timers of the server only, with the badge of their client. */
  ghost predicate FromTimer(s: Server, e: Event) {
    e.Fired? && 1 <= e.badge && Key(e.badge - 1, e.timer) in s.cells
  }

  lemma {:induction false} BurstFromTimers(s: Server)
    requires WellFormed(s) && DrainSafe(s)
    ensures forall e | e in Burst(s) :: FromTimer(s, e)
    decreases Measure(s)
  {
    if Due(s) {
      FireKeeps(s);
      FireMeasure(s);
      BurstFromTimers(Fire(s));
      var h := s.queue[0];
      assert h in s.queue && Key(h.client, h.timer) == h;
      assert Fire(s).cells.Keys == s.cells.Keys;
      assert forall e | e in Burst(Fire(s)) :: FromTimer(s, e);
    }
  }

  lemma FireRaises(s: Server)
    requires WellFormed(s) && DrainSafe(s) && Due(s)
    ensures QueueFrom(Fire(s), DeadlineOf(s.cells, s.queue[0]))
  {
    var k, rest := s.queue[0], s.queue[1..];
    assert k in s.queue;
    var f := Fire(s);
    FireQueue(s);
    forall i | 0 <= i < |f.queue|
      ensures DeadlineOf(s.cells, k) <= DeadlineOf(f.cells, f.queue[i])
    {
      var x := f.queue[i];
      assert x in f.queue;
      if x != k {
        InsertAtMembers(rest, k, Position(f.cells, rest, DeadlineOf(f.cells, k)), x);
        assert x in rest;
        var j :| 0 <= j < |rest| && rest[j] == x;
        assert s.queue[j + 1] == x;
        assert DeadlineOf(s.cells, s.queue[0]) <= DeadlineOf(s.cells, s.queue[j + 1]);
      }
    }
  }

  // ------------------------------------------------------------ timer by timer

  /** The cell of a timer after everything due by `now` has been signalled. */
  function Settle(c: Cell, now: nat): Cell {
    if Pending(c, now) == 0 then c
    else if c.kind == Periodic then c.(deadline := c.deadline + Pending(c, now) * c.period)
    else c.(kind := Off)
  }

  datatype Firing = Firing(deadline: nat, at: nat)

  /** The signals of one timer when everything due by `now` is signalled at once. */
  function Firings(c: Cell, now: nat): (f: seq<Firing>)
    ensures |f| == Pending(c, now)
  {
    seq(Pending(c, now), i requires 0 <= i => Firing(c.deadline + i * c.period, now))
  }

  function FiringsOf(e: Event, k: Key): seq<Firing> {
    if e.Fired? && e.badge == k.client + 1 && e.timer == k.timer then [Firing(e.deadline, e.at)] else []
  }

  /** The signals of timer k in a log. */
  function History(log: seq<Event>, k: Key): seq<Firing> {
    if log == [] then [] else FiringsOf(log[0], k) + History(log[1..], k)
  }

  lemma {:induction false} HistoryAppend(a: seq<Event>, b: seq<Event>, k: Key)
    ensures History(a + b, k) == History(a, k) + History(b, k)
  {
    if a == [] {
      assert a + b == b;
    } else {
      assert (a + b)[1..] == a[1..] + b;
      HistoryAppend(a[1..], b, k);
    }
  }

  lemma HistoryOne(e: Event, k: Key)
    ensures History([e], k) == FiringsOf(e, k)
  {
    assert History([e], k) == FiringsOf(e, k) + History([e][1..], k);
  }

  lemma Distribute(i: nat, p: nat)
    ensures p + i * p == (i + 1) * p
  {
  }

  /** Settling a due timer is signalling it once and settling what that leaves. */
  lemma SettleStep(c: Cell, now: nat)
    requires c.kind != Off && c.deadline <= now && (c.kind == Periodic ==> 0 < c.period)
    ensures var c' := Signal(c);
            && Settle(c, now) == Settle(c', now)
            && Firings(c, now) == [Firing(c.deadline, now)] + Firings(c', now)
            && Pending(c, now) == 1 + Pending(c', now)
  {
    if c.kind == Periodic {
      AdvanceOnce(c, now);
      var c' := Signal(c);
      var n := Pending(c', now);
      Distribute(n, c.period);
      forall i | 0 <= i < n
        ensures Firings(c, now)[i + 1] == Firings(c', now)[i]
      {
        Distribute(i, c.period);
      }
      assert Firings(c, now)[0] == Firing(c.deadline, now);
      var f := [Firing(c.deadline, now)] + Firings(c', now);
      assert forall i | 0 <= i < |f| :: Firings(c, now)[i] == if i == 0 then f[0] else Firings(c', now)[i - 1];
    }
  }

  /** The cell a signal leaves behind in the timer that is signalled. */
  function Signal(c: Cell): Cell {
    if c.kind == Periodic then c.(deadline := c.deadline + c.period) else c.(kind := Off)
  }

  lemma FireTimer(s: Server, k: Key)
    requires WellFormed(s) && DrainSafe(s) && Due(s) && k in s.cells
    ensures k in Fire(s).cells && Fire(s).now == s.now
    ensures Fire(s).cells[k] == if k == s.queue[0] then Signal(s.cells[k]) else s.cells[k]
    ensures k == s.queue[0] ==>
              s.cells[k].kind != Off && s.cells[k].deadline <= s.now
              && (s.cells[k].kind == Periodic ==> 0 < s.cells[k].period)
  {
    assert s.queue[0] in s.queue;
    assert k == s.queue[0] ==> Active(s.cells, k);
    assert k == s.queue[0] && s.cells[k].kind == Periodic ==> DuePeriodic(s.cells, k, s.now);
  }

  /** What the drain loop does to timer k: its closed form, whatever the other timers are. */
  lemma {:induction false} DrainTimer(s: Server, k: Key)
    requires WellFormed(s) && DrainSafe(s) && k in s.cells
    ensures k in Drain(s).cells && Drain(s).cells[k] == Settle(s.cells[k], s.now)
    ensures History(Burst(s), k) == Firings(s.cells[k], s.now)
    decreases Measure(s)
  {
    if Due(s) {
      FireKeeps(s);
      FireMeasure(s);
      FireTimer(s, k);
      DrainTimer(Fire(s), k);
      BurstHistory(s, k);
      if s.queue[0] == k {
        SettleStep(s.cells[k], s.now);
      }
    } else if s.cells[k].kind != Off {
      NothingDue(s, k);
    }
  }

  lemma BurstHistory(s: Server, k: Key)
    requires WellFormed(s) && DrainSafe(s) && Due(s)
    requires WellFormed(Fire(s)) && DrainSafe(Fire(s)) && Measure(Fire(s)) < Measure(s)
    ensures History(Burst(s), k) == FiringsOf(FiredNow(s, s.queue[0]), k) + History(Burst(Fire(s)), k)
  {
    HistoryAppend([FiredNow(s, s.queue[0])], Burst(Fire(s)), k);
    HistoryOne(FiredNow(s, s.queue[0]), k);
  }

  /** A drain sets the completion bits of the timers it signals and no others. */
  lemma {:induction false} DrainWords(s: Server, k: Key)
    requires WellFormed(s) && DrainSafe(s) && k in s.cells
    ensures |Drain(s).words| == |s.words|
    ensures k.timer in Drain(s).words[k.client]
       <==> k.timer in s.words[k.client] || Pending(s.cells[k], s.now) > 0
    decreases Measure(s)
  {
    if Due(s) {
      FireKeeps(s);
      FireMeasure(s);
      FireTimer(s, k);
      FireWord(s, k);
      DrainWords(Fire(s), k);
      if s.queue[0] == k {
        SettleStep(s.cells[k], s.now);
      }
    } else if s.cells[k].kind != Off {
      NothingDue(s, k);
    }
  }

  lemma FireWord(s: Server, k: Key)
    requires WellFormed(s) && Due(s) && k in s.cells
    ensures |Fire(s).words| == |s.words|
    ensures k.timer in Fire(s).words[k.client] <==> s.queue[0] == k || k.timer in s.words[k.client]
  {
    var h := s.queue[0];
    assert h in s.queue && h in s.cells;
  }

  /** Timer k of r is timer k of s with everything due by r.now signalled. */
  ghost predicate TimerTicked(s: Server, r: Server, k: Key) {
    && k in s.cells && k in r.cells
    && k.client < |s.words| && k.client < |r.words|
    && r.cells[k] == Settle(s.cells[k], r.now)
    && History(r.log, k) == History(s.log, k) + Firings(s.cells[k], r.now)
    && (k.timer in r.words[k.client]
        <==> k.timer in s.words[k.client] || Pending(s.cells[k], r.now) > 0)
  }

  lemma DrainTicks(s: Server, k: Key)
    requires WellFormed(s) && DrainSafe(s) && k in s.cells
    ensures TimerTicked(s, Drain(s), k)
  {
    var r := Drain(s);
    DrainKeeps(s);
    DrainLog(s);
    DrainTimer(s, k);
    DrainWords(s, k);
    HistoryAppend(s.log, Burst(s), k);
  }

  lemma FireOther(s: Server, k: Key)
    requires WellFormed(s) && Due(s) && k !in s.cells && k.client < |s.words|
    ensures k !in Fire(s).cells && |Fire(s).words| == |s.words| && k != s.queue[0]
    ensures k.timer in Fire(s).words[k.client] <==> k.timer in s.words[k.client]
    ensures FiringsOf(FiredNow(s, s.queue[0]), k) == []
  {
    assert s.queue[0] in s.queue;
  }

  /** Bits beyond the timers of a client stay as they are. */
  lemma {:induction false} DrainOtherBits(s: Server, k: Key)
    requires WellFormed(s) && DrainSafe(s) && k !in s.cells && k.client < |s.words|
    ensures |Drain(s).words| == |s.words|
    ensures k.timer in Drain(s).words[k.client] <==> k.timer in s.words[k.client]
    ensures History(Burst(s), k) == []
    decreases Measure(s)
  {
    if Due(s) {
      FireKeeps(s);
      FireMeasure(s);
      FireOther(s, k);
      DrainOtherBits(Fire(s), k);
      BurstHistory(s, k);
    }
  }
}
