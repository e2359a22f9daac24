/**
 Exactly when the drain loop of the tick handler ends, for every state of the server: 64-bit
 deadlines may wrap and periods may be zero.
 */
module TimerEnds {
  import opened Words
  import opened TimerModel
  import opened TimerDrain

  /** The deadline after n more periods, each added in 64 bits. */
  function After(deadline: nat, period: nat, n: nat): nat
    decreases n
  {
    if n == 0 then deadline else After(Add64(deadline, period), period, n - 1)
  }

  predicate Passes(c: Cell, now: nat, n: nat) {
    now < After(c.deadline, c.period, n)
  }

  /** Some number of periods takes the timer beyond now. */
  ghost predicate CanPass(c: Cell, now: nat) {
    exists n: nat :: Passes(c, now, n)
  }

  ghost predicate AllCanPass(s: Server) {
    forall k | DuePeriodic(s.cells, k, s.now) :: CanPass(s.cells[k], s.now)
  }

  /** The cell a signal leaves behind, with 64-bit addition. */
  function Signal64(c: Cell): Cell {
    if c.kind == Periodic then c.(deadline := Add64(c.deadline, c.period)) else c.(kind := Off)
  }

  lemma FireCell(s: Server, k: Key)
    requires WellFormed(s) && Due(s) && k in s.cells
    ensures k in Fire(s).cells && Fire(s).now == s.now && Fire(s).cells.Keys == s.cells.Keys
    ensures Fire(s).cells[k] == if k == s.queue[0] then Signal64(s.cells[k]) else s.cells[k]
    ensures k == s.queue[0] ==> Active(s.cells, k) && s.cells[k].deadline <= s.now
  {
    assert s.queue[0] in s.queue;
  }

  // -------------------------------------------- a loop that ends passes all timers

  lemma {:induction false} EndsPasses(s: Server, k: Key, n: nat)
    requires WellFormed(s) && DuePeriodic(s.cells, k, s.now) && StopsAfter(s, n)
    ensures CanPass(s.cells[k], s.now)
    decreases n
  {
    DueTimerMakesDue(s, k);
    var c := s.cells[k];
    FireKeeps(s);
    FireCell(s, k);
    var c' := Fire(s).cells[k];
    if c'.deadline <= s.now {
      EndsPasses(Fire(s), k, n - 1);
    }
    PassesOnce(c, c', s.now);
  }

  lemma OneMorePeriod(c: Cell, c': Cell, now: nat, m: nat)
    requires c.kind == Periodic && c' == Signal64(c) && Passes(c', now, m)
    ensures Passes(c, now, m + 1)
  {
    assert After(c.deadline, c.period, m + 1) == After(Add64(c.deadline, c.period), c.period, m);
  }

  lemma PassesOnce(c: Cell, c': Cell, now: nat)
    requires c.kind == Periodic && (c' == c || c' == Signal64(c))
    requires now < c'.deadline || CanPass(c', now)
    ensures CanPass(c, now)
  {
    if now < c'.deadline {
      assert Passes(c', now, 0);
    }
    var m: nat :| Passes(c', now, m);
    if c' != c {
      OneMorePeriod(c, c', now, m);
    }
  }

  // ------------------------------------------------- what it takes for it to end

  /** b signals are enough for the timer. */
  predicate Enough(c: Cell, now: nat, b: nat)
    decreases b
  {
    c.kind == Off || now < c.deadline || (0 < b && Enough(Signal64(c), now, b - 1))
  }

  lemma {:induction false} PassesIsEnough(c: Cell, now: nat, n: nat)
    requires c.kind == Periodic && Passes(c, now, n)
    ensures Enough(c, now, n)
    decreases n
  {
    if n > 0 {
      PassesIsEnough(Signal64(c), now, n - 1);
    }
  }

  ghost function Need(c: Cell, now: nat): (n: nat)
    ensures c.kind != Periodic || now < c.deadline || CanPass(c, now) ==> Enough(c, now, n)
  {
    if c.kind == Periodic && CanPass(c, now) then
      var n: nat :| Passes(c, now, n);
      PassesIsEnough(c, now, n);
      n
    else 1
  }

  function Total(w: map<Key, nat>, q: seq<Key>): nat {
    if q == [] then 0 else (if q[0] in w then w[q[0]] else 0) + Total(w, q[1..])
  }

  lemma {:induction false} TotalDrops(w: map<Key, nat>, q: seq<Key>, k: Key)
    requires k in w && 0 < w[k]
    ensures Total(w[k := w[k] - 1], q) <= Total(w, q)
    ensures k in q ==> Total(w[k := w[k] - 1], q) < Total(w, q)
  {
    if q != [] {
      TotalDrops(w, q[1..], k);
    }
  }

  ghost predicate Budget(s: Server, w: map<Key, nat>, q: seq<Key>) {
    && (forall k | k in s.cells :: k in w && Enough(s.cells[k], s.now, w[k]))
    && (forall k | k in s.cells && k !in q :: !Active(s.cells, k))
  }

  lemma BudgetStep(s: Server, w: map<Key, nat>, q: seq<Key>)
    requires WellFormed(s) && Due(s) && Budget(s, w, q)
    ensures var k := s.queue[0];
            k in q && k in w && 0 < w[k] && Budget(Fire(s), w[k := w[k] - 1], q)
  {
    var k := s.queue[0];
    assert k in s.queue;
    var w' := w[k := w[k] - 1];
    forall x | x in Fire(s).cells
      ensures x in w' && Enough(Fire(s).cells[x], s.now, w'[x])
      ensures x !in q ==> !Active(Fire(s).cells, x)
    {
      assert x in s.cells;
      FireCell(s, x);
    }
  }

  /** Each signal uses up one unit of the budget. */
  lemma {:induction false} BudgetEnds(s: Server, w: map<Key, nat>, q: seq<Key>, n: nat)
    requires WellFormed(s) && Budget(s, w, q) && Total(w, q) <= n
    ensures StopsAfter(s, n)
    decreases n
  {
    if Due(s) {
      var k := s.queue[0];
      BudgetStep(s, w, q);
      TotalDrops(w, q, k);
      FireKeeps(s);
      BudgetEnds(Fire(s), w[k := w[k] - 1], q, n - 1);
    }
  }

  /** The drain loop ends if and only if every due periodic timer can be taken beyond now by adding
      its period some number of times in 64 bits. */
  lemma DrainEndsExactly(s: Server)
    requires WellFormed(s)
    ensures Ends(s) <==> AllCanPass(s)
  {
    if AllCanPass(s) {
      var w := map k | k in s.cells :: Need(s.cells[k], s.now);
      forall k | k in s.cells
        ensures k in w && Enough(s.cells[k], s.now, w[k])
        ensures k !in s.queue ==> !Active(s.cells, k)
      {
        assert DuePeriodic(s.cells, k, s.now) ==> CanPass(s.cells[k], s.now);
      }
      BudgetEnds(s, w, s.queue, Total(w, s.queue));
    }
    if Ends(s) {
      var n :| StopsAfter(s, n);
      forall k | DuePeriodic(s.cells, k, s.now)
        ensures CanPass(s.cells[k], s.now)
      {
        EndsPasses(s, k, n);
      }
    }
  }

  /** One request is enough to hang the handler: after SetPeriodic(0, 0, 0) the next tick never
      ends. */
  lemma ZeroPeriodHangs()
    ensures var op := SetPeriodic(0, 0, 0);
            && CanStep(Init(1, 1), op)
            && WellFormed(Step(Init(1, 1), op))
            && !Ends(Ticked(Step(Init(1, 1), op)))
  {
    var op, k := SetPeriodic(0, 0, 0), Key(0, 0);
    var s := Init(1, 1);
    assert k in s.cells;
    ArmKeeps(s, k, Armed(op, s.cells[k], s.now));
    var t := Ticked(Step(s, op));
    assert t.cells[k] == Cell(Periodic, 0, 0) && t.now == TICK;
    forall n: nat
      ensures !StopsAfter(t, n)
    {
      ZeroPeriodStaysDue(t, k, n);
    }
  }
}
