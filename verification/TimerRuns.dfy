/**
 What clients can rely on over whole runs of the timer server: periodic timers do not
 drift, one-shot timers fire once and on time, stopping cancels, and completion words
 report exactly what fired.
 */
module TimerRuns {
  import opened Words
  import opened TimerModel
  import opened TimerDrain
  import opened TimerTable

  function Ticks(ops: seq<Op>): nat {
    if ops == [] then 0 else Ticks(ops[..|ops| - 1]) + if ops[|ops| - 1].Tick? then 1 else 0
  }

  predicate Addresses(op: Op, k: Key) {
    !op.Completed? && !op.Tick? && 0 <= op.tid && Target(op) == k
  }

  /** No request in ops names timer k; anything may happen to the other timers. */
  ghost predicate LeftAlone(ops: seq<Op>, k: Key) {
    forall i | 0 <= i < |ops| :: !Addresses(ops[i], k)
  }

  lemma {:induction false} ClockOfRun(t: Table, ops: seq<Op>)
    ensures TableRun(t, ops).now == t.now + Ticks(ops) * TICK
    ensures TableRun(t, ops).cells.Keys == t.cells.Keys
    ensures TableRun(t, ops).history.Keys >= t.history.Keys * t.cells.Keys
  {
    if ops != [] {
      ClockOfRun(t, ops[..|ops| - 1]);
    }
  }

  /** The part of a table that concerns timer k. */
  lemma LeftAloneStep(t: Table, op: Op, k: Key)
    requires k in t.cells && k in t.history && !Addresses(op, k)
    ensures var r := TableStep(t, op);
            && k in r.cells && k in r.history
            && r.now == (if op.Tick? then t.now + TICK else t.now)
            && r.cells[k] == (if op.Tick? then Settle(t.cells[k], r.now) else t.cells[k])
            && r.history[k] == (if op.Tick? then t.history[k] + Firings(t.cells[k], r.now) else t.history[k])
  {
  }

  // ----------------------------------------------------------------- periodic

  /** The i-th firing of a timer armed at t0 with period p: its deadline has not drifted,
      and it is signalled at the first tick that is not before the deadline. */
  ghost predicate OnTime(f: Firing, t0: nat, p: nat, i: nat) {
    && f.deadline == t0 + (i + 1) * p
    && f.deadline <= f.at < f.deadline + TICK
    && f.at >= t0 && (f.at - t0) % TICK == 0
  }

  ghost predicate Schedule(fs: seq<Firing>, t0: nat, p: nat) {
    forall i | 0 <= i < |fs| :: OnTime(fs[i], t0, p, i)
  }

  /** Timer k, armed at t0 with period p when its history was `before`, has fired exactly
      floor((now - t0) / p) times since, each time on schedule. */
  ghost predicate NoDriftAt(r: Table, k: Key, t0: nat, p: nat, before: seq<Firing>) {
    && k in r.cells && k in r.history && t0 <= r.now && (r.now - t0) % TICK == 0 && 0 < p
    && var n := (r.now - t0) / p;
       && r.cells[k] == Cell(Periodic, p, t0 + (n + 1) * p)
       && before <= r.history[k]
       && var since := r.history[k][|before|..];
          |since| == n && Schedule(since, t0, p)
  }

  lemma Spread(n: int, m: int, p: int)
    ensures (n + m) * p == n * p + m * p
  {
  }

  lemma QuotientBounds(x: nat, p: nat)
    requires 0 < p
    ensures (x / p) * p <= x < (x / p + 1) * p
  {
    Spread(x / p, 1, p);
  }

  lemma QuotientBefore(x: nat, y: nat, p: nat)
    requires 0 < p && x <= y < (x / p + 1) * p
    ensures y / p == x / p
  {
    QuotientBounds(x, p);
    Squeezed(x / p, x, y, p);
  }

  lemma Squeezed(q: nat, x: nat, y: nat, p: nat)
    requires 0 < p && q * p <= x <= y < (q + 1) * p
    ensures y / p == q
  {
    DivUnique(y, p, q);
  }

  lemma QuotientAfter(y: nat, p: nat, m: nat)
    requires 0 < p && m * p <= y
    ensures y / p == m + (y - m * p) / p
  {
    var q := (y - m * p) / p;
    QuotientBounds(y - m * p, p);
    Spread(m, q, p);
    Spread(m, q + 1, p);
    DivUnique(y, p, m + q);
  }

  /** How many periods the clock completes between two ticks. */
  lemma PeriodsBetween(t0: nat, p: nat, now: nat, later: nat)
    requires 0 < p && t0 <= now <= later
    ensures var n := (now - t0) / p;
            (later - t0) / p == n + Pending(Cell(Periodic, p, t0 + (n + 1) * p), later)
  {
    var n := (now - t0) / p;
    var d := t0 + (n + 1) * p;
    if later < d {
      QuotientBefore(now - t0, later - t0, p);
    } else {
      QuotientAfter(later - t0, p, n + 1);
    }
  }

  /** The signals of one tick: the j-th of them belongs to period n + j. */
  lemma TickOnTime(t0: nat, p: nat, now: nat, n: nat, d: nat, j: nat)
    requires 0 < p && t0 <= now < d && (now - t0) % TICK == 0
    requires d == t0 + (n + 1) * p
    requires j < Pending(Cell(Periodic, p, d), now + TICK)
    ensures OnTime(Firing(d + j * p, now + TICK), t0, p, n + j)
  {
    Spread(n + 1, j, p);
    QuotientBounds(now + TICK - d, p);
    MulMono(j, (now + TICK - d) / p, p);
  }

  lemma NoDriftTick(t: Table, k: Key, t0: nat, p: nat, before: seq<Firing>)
    requires NoDriftAt(t, k, t0, p, before)
    ensures NoDriftAt(TickTable(t), k, t0, p, before)
  {
    var r := TickTable(t);
    var n, c := (t.now - t0) / p, t.cells[k];
    var m := Pending(c, r.now);
    PeriodsBetween(t0, p, t.now, r.now);
    QuotientBounds(t.now - t0, p);
    Spread(n + 1, m, p);
    var since, since' := t.history[k][|before|..], r.history[k][|before|..];
    assert since' == since + Firings(c, r.now);
    forall i | 0 <= i < |since'|
      ensures OnTime(since'[i], t0, p, i)
    {
      if i < n {
        assert since'[i] == since[i];
      } else {
        TickOnTime(t0, p, t.now, n, c.deadline, i - n);
      }
    }
  }

  /** No drift: a periodic timer armed at t0 and left alone keeps its schedule over every run,
      whatever the other timers and clients do. */
  lemma {:induction false} NoDrift(t: Table, k: Key, p: nat, ops: seq<Op>)
    requires k in t.cells && k in t.history && 0 < p
    requires t.cells[k] == Cell(Periodic, p, t.now + p)
    requires LeftAlone(ops, k)
    ensures NoDriftAt(TableRun(t, ops), k, t.now, p, t.history[k])
  {
    if ops == [] {
      assert t.history[k][|t.history[k]|..] == [];
      DivUnique(0, p, 0);
    } else {
      var i := |ops| - 1;
      NoDrift(t, k, p, ops[..i]);
      assert !Addresses(ops[i], k);
      LeftAloneStep(TableRun(t, ops[..i]), ops[i], k);
      if ops[i].Tick? {
        NoDriftTick(TableRun(t, ops[..i]), k, t.now, p, t.history[k]);
      }
    }
  }

  /** The next deadline lies ahead, by no more than one period. */
  lemma NextDeadline(r: Table, k: Key, t0: nat, p: nat, before: seq<Firing>)
    requires NoDriftAt(r, k, t0, p, before)
    ensures r.now < r.cells[k].deadline <= r.now + p
  {
    QuotientBounds(r.now - t0, p);
    Spread((r.now - t0) / p, 1, p);
  }

  // ----------------------------------------------------------------- one-shot

  /** `at` is the first tick after t0 whose time is not before the deadline d. */
  predicate FirstTick(at: nat, t0: nat, d: nat) {
    t0 < at && (at - t0) % TICK == 0 && d <= at && (at - TICK <= t0 || at - TICK < d)
  }

  ghost predicate FiredOnce(r: Table, k: Key, t0: nat, c: Cell, before: seq<Firing>) {
    && k in r.cells && k in r.history
    && r.cells[k] == c.(kind := Off)
    && |r.history[k]| == |before| + 1
    && r.history[k][..|before|] == before
    && r.history[k][|before|].deadline == c.deadline
    && FirstTick(r.history[k][|before|].at, t0, c.deadline)
  }

  ghost predicate StillWaiting(r: Table, k: Key, c: Cell, before: seq<Firing>) {
    k in r.cells && k in r.history && r.cells[k] == c && r.history[k] == before
  }

  /** A one-shot timer left alone fires exactly once, at the first tick that reaches its
      deadline; before that tick it has not fired. */
  lemma {:induction false} OneShot(t: Table, k: Key, ops: seq<Op>)
    requires k in t.cells && k in t.history && t.cells[k].kind in {Absolute, Relative}
    requires LeftAlone(ops, k)
    ensures var r := TableRun(t, ops);
            if Ticks(ops) > 0 && t.cells[k].deadline <= r.now
            then FiredOnce(r, k, t.now, t.cells[k], t.history[k])
            else StillWaiting(r, k, t.cells[k], t.history[k])
  {
    if ops != [] {
      var i := |ops| - 1;
      OneShot(t, k, ops[..i]);
      assert !Addresses(ops[i], k);
      ClockOfRun(t, ops[..i]);
      LeftAloneStep(TableRun(t, ops[..i]), ops[i], k);
    }
  }

  /** A deadline in the future is met less than one tick late, and never early. */
  lemma FirstTickOnTime(at: nat, t0: nat, d: nat)
    requires FirstTick(at, t0, d)
    ensures d <= at
    ensures t0 < d ==> at < d + TICK
    ensures d <= t0 ==> at == t0 + TICK
  {
    if d <= t0 {
      OneTick(at - t0);
    }
  }

  lemma OneTick(x: nat)
    requires 0 < x <= TICK && x % TICK == 0
    ensures x == TICK
  {
  }

  // ---------------------------------------------------- stopping and re-arming

  predicate Arms(op: Op, k: Key) {
    (op.OneshotRelative? || op.OneshotAbsolute? || op.SetPeriodic?) && Addresses(op, k)
  }

  /** A timer that is off and not armed again gives no signal, so a stop cancels for good. */
  lemma {:induction false} OffStaysSilent(t: Table, k: Key, ops: seq<Op>)
    requires k in t.cells && k in t.history && t.cells[k].kind == Off
    requires forall i | 0 <= i < |ops| :: !Arms(ops[i], k)
    ensures var r := TableRun(t, ops);
            && k in r.cells && r.cells[k].kind == Off
            && k in r.history && r.history[k] == t.history[k]
  {
    if ops != [] {
      var i := |ops| - 1;
      OffStaysSilent(t, k, ops[..i]);
      assert !Arms(ops[i], k);
      assert TableRun(t, ops) == TableStep(TableRun(t, ops[..i]), ops[i]);
    }
  }
}
