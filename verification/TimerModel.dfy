/**
 The timer server on values: per-client timers, the deadline-sorted queue of active
 timers, the completion words (as sets of bit positions) and a log of what the clients can observe.
 The linked-list server of module TimerServer is proved to do exactly this, and module
 TimerTable relates it to a table without any queue.
 */
module TimerModel {
  import opened Words

  const NS_IN_S: nat := 1_000_000_000
  const TIMER_FREQUENCY: nat := 1000

  // One tick of the hardware timer.
  const TICK: nat := 1_000_000

  lemma TickIsTimerPeriod()
    ensures TICK == NS_IN_S / TIMER_FREQUENCY
  {
  }

  datatype Kind = Off | Periodic | Absolute | Relative

  datatype Cell = Cell(kind: Kind, period: nat, deadline: nat)

  datatype Key = Key(client: nat, timer: nat)

  datatype Event =
    | Fired(badge: nat, timer: nat, deadline: nat, at: nat)
    | Collected(client: nat, bits: set<nat>)

  datatype Server = Server(
    perClient: nat,
    now: nat,
    cells: map<Key, Cell>,
    queue: seq<Key>,
    words: seq<set<nat>>,
    log: seq<Event>)

  /** The requests of the clients, and the timer interrupt. */
  datatype Op =
    | OneshotRelative(cid: nat, tid: int, ns: nat)
    | OneshotAbsolute(cid: nat, tid: int, ns: nat)
    | SetPeriodic(cid: nat, tid: int, ns: nat)
    | Stop(cid: nat, tid: int)
    | Completed(cid: nat)
    | Tick

  // ---------------------------------------------------------------- the queue

  function DeadlineOf(cells: map<Key, Cell>, k: Key): nat {
    if k in cells then cells[k].deadline else 0
  }

  /** The number of leading timers whose deadline lies before d: where the insertion loop stops. */
  function Position(cells: map<Key, Cell>, q: seq<Key>, d: nat): (p: nat)
    ensures p <= |q|
    ensures forall i | 0 <= i < p :: DeadlineOf(cells, q[i]) < d
    ensures p < |q| ==> d <= DeadlineOf(cells, q[p])
  {
    if q == [] || d <= DeadlineOf(cells, q[0]) then 0 else 1 + Position(cells, q[1..], d)
  }

  function Insert(cells: map<Key, Cell>, q: seq<Key>, k: Key): seq<Key> {
    var p := Position(cells, q, DeadlineOf(cells, k));
    q[..p] + [k] + q[p..]
  }

  function Without(q: seq<Key>, k: Key): seq<Key> {
    if q == [] then [] else if q[0] == k then q[1..] else [q[0]] + Without(q[1..], k)
  }

  ghost predicate Distinct(q: seq<Key>) {
    forall i, j | 0 <= i < j < |q| :: q[i] != q[j]
  }

  ghost predicate Sorted(cells: map<Key, Cell>, q: seq<Key>) {
    forall i, j | 0 <= i < j < |q| :: DeadlineOf(cells, q[i]) <= DeadlineOf(cells, q[j])
  }

  predicate Active(cells: map<Key, Cell>, k: Key) {
    k in cells && cells[k].kind != Off
  }

  ghost predicate HoldsActive(cells: map<Key, Cell>, q: seq<Key>) {
    forall k :: k in q <==> Active(cells, k)
  }

  /** The queue holds exactly the timers that are not off, each once, in deadline order. */
  ghost predicate QueueOk(cells: map<Key, Cell>, q: seq<Key>) {
    && Distinct(q)
    && Sorted(cells, q)
    && HoldsActive(cells, q)
  }

  ghost predicate KeysOk(s: Server) {
    forall k :: k in s.cells <==> k.client < |s.words| && k.timer < s.perClient
  }

  ghost predicate WellFormed(s: Server) {
    && s.perClient <= 32
    && KeysOk(s)
    && QueueOk(s.cells, s.queue)
  }

  // ----------------------------------------------------------- the operations

  function Init(clients: nat, perClient: nat): (s: Server) {
    Server(perClient, 0,
           map c: nat, t: nat | c < clients && t < perClient :: Key(c, t) := Cell(Off, 0, 0),
           [], seq(clients, _ => {}), [])
  }

  /** remove_timer, which every request calls when the timer is not off. */
  function Unlink(s: Server, k: Key): Server {
    if Active(s.cells, k) then s.(queue := Without(s.queue, k)) else s
  }

  /** Re-arms timer k: unlink it if it is active, overwrite its fields, insert it. */
  function Arm(s: Server, k: Key, c: Cell): Server {
    var u := Unlink(s, k);
    var cells := u.cells[k := c];
    u.(cells := cells, queue := Insert(cells, u.queue, k))
  }

  function Disarm(s: Server, k: Key): Server
    requires k in s.cells
  {
    if s.cells[k].kind == Off then s else
    var u := Unlink(s, k);
    u.(cells := u.cells[k := u.cells[k].(kind := Off)])
  }

  predicate Due(s: Server) {
    s.queue != [] && DeadlineOf(s.cells, s.queue[0]) <= s.now
  }

  function FiredNow(s: Server, k: Key): Event {
    Fired(k.client + 1, k.timer, DeadlineOf(s.cells, k), s.now)
  }

  /** What a client sees of a signal: the emitted badge and the bit in its completion word. */
  function Signalled(s: Server, k: Key): Server
    requires k.client < |s.words|
  {
    s.(log := s.log + [FiredNow(s, k)],
       words := s.words[k.client := s.words[k.client] + {k.timer}])
  }

  /** signal_client on the first timer of the queue: a periodic timer is inserted anew. */
  function Fire(s: Server): Server
    requires WellFormed(s) && Due(s)
  {
    var k := s.queue[0];
    assert k in s.queue;
    var c := s.cells[k];
    var signalled := Signalled(s, k);
    if c.kind == Periodic
    then Arm(signalled, k, c.(deadline := Add64(c.deadline, c.period)))
    else Disarm(signalled, k)
  }

  predicate DuePeriodic(cells: map<Key, Cell>, k: Key, now: nat) {
    Active(cells, k) && cells[k].kind == Periodic && cells[k].deadline <= now
  }

  /** The next deadline of every periodic timer that is due fits 64 bits. */
  ghost predicate NoWrap(s: Server) {
    s.now < TWO64 && forall k | DuePeriodic(s.cells, k, s.now) :: s.now + s.cells[k].period < TWO64
  }

  ghost predicate PositivePeriods(s: Server) {
    forall k | DuePeriodic(s.cells, k, s.now) :: 0 < s.cells[k].period
  }

  /** What the drain loop needs in order to end. */
  ghost predicate DrainSafe(s: Server) {
    NoWrap(s) && PositivePeriods(s)
  }

  /** How often a timer fires when everything due by `now` is signalled. */
  function Pending(c: Cell, now: nat): nat {
    if c.kind == Off || now < c.deadline then 0
    else if c.kind == Periodic && 0 < c.period then (now - c.deadline) / c.period + 1
    else 1
  }

  function PendingSum(cells: map<Key, Cell>, q: seq<Key>, now: nat): nat {
    if q == [] then 0
    else (if q[0] in cells then Pending(cells[q[0]], now) else 0) + PendingSum(cells, q[1..], now)
  }

  function Measure(s: Server): nat {
    PendingSum(s.cells, s.queue, s.now)
  }

  // ------------------------------------------------- what one operation keeps

  lemma {:induction false} WithoutAt(q: seq<Key>, k: Key, i: nat)
    requires Distinct(q) && i < |q| && q[i] == k
    ensures Without(q, k) == q[..i] + q[i + 1..]
  {
    if i > 0 {
      assert Distinct(q[1..]);
      WithoutAt(q[1..], k, i - 1);
      assert q[..i] == [q[0]] + q[1..][..i - 1];
    }
  }

  lemma DropKeeps(cells: map<Key, Cell>, q: seq<Key>, i: nat)
    requires Distinct(q) && Sorted(cells, q) && i < |q|
    ensures var r := q[..i] + q[i + 1..]; Distinct(r) && Sorted(cells, r)
  {
    var r := q[..i] + q[i + 1..];
    forall a, b | 0 <= a < b < |r|
      ensures r[a] != r[b] && DeadlineOf(cells, r[a]) <= DeadlineOf(cells, r[b])
    {
      var a', b' := if a < i then a else a + 1, if b < i then b else b + 1;
      assert r[a] == q[a'] && r[b] == q[b'];
    }
  }

  lemma DropMembers(q: seq<Key>, i: nat, x: Key)
    requires Distinct(q) && i < |q|
    ensures x in q[..i] + q[i + 1..] <==> x in q && x != q[i]
  {
    var r := q[..i] + q[i + 1..];
    if x in q && x != q[i] {
      var j :| 0 <= j < |q| && q[j] == x;
      assert r[if j < i then j else j - 1] == x;
    }
    if x in r {
      var j :| 0 <= j < |r| && r[j] == x;
      assert q[if j < i then j else j + 1] == x;
    }
  }

  lemma WithoutKeeps(cells: map<Key, Cell>, q: seq<Key>, k: Key)
    requires Distinct(q) && Sorted(cells, q) && k in q
    ensures var r := Without(q, k); Distinct(r) && Sorted(cells, r)
    ensures forall x :: x in Without(q, k) <==> x in q && x != k
  {
    var i :| 0 <= i < |q| && q[i] == k;
    WithoutAt(q, k, i);
    DropKeeps(cells, q, i);
    forall x
      ensures x in Without(q, k) <==> x in q && x != k
    {
      DropMembers(q, i, x);
    }
  }

  lemma SortedAgree(cells: map<Key, Cell>, cells': map<Key, Cell>, q: seq<Key>)
    requires Sorted(cells, q)
    requires forall k | k in q :: DeadlineOf(cells, k) == DeadlineOf(cells', k)
    ensures Sorted(cells', q)
  {
  }

  lemma InsertKeeps(cells: map<Key, Cell>, q: seq<Key>, k: Key)
    requires Distinct(q) && Sorted(cells, q) && k !in q
    ensures var r := Insert(cells, q, k); Distinct(r) && Sorted(cells, r)
    ensures forall x :: x in Insert(cells, q, k) <==> x in q || x == k
  {
    var p := Position(cells, q, DeadlineOf(cells, k));
    InsertAtKeeps(cells, q, k, p);
    forall x
      ensures x in Insert(cells, q, k) <==> x in q || x == k
    {
      InsertAtMembers(q, k, p, x);
    }
  }

  lemma InsertAtKeeps(cells: map<Key, Cell>, q: seq<Key>, k: Key, p: nat)
    requires Distinct(q) && Sorted(cells, q) && k !in q && p <= |q|
    requires forall i | 0 <= i < p :: DeadlineOf(cells, q[i]) < DeadlineOf(cells, k)
    requires p < |q| ==> DeadlineOf(cells, k) <= DeadlineOf(cells, q[p])
    ensures var r := q[..p] + [k] + q[p..]; Distinct(r) && Sorted(cells, r)
  {
    var r := q[..p] + [k] + q[p..];
    forall a, b | 0 <= a < b < |r|
      ensures r[a] != r[b] && DeadlineOf(cells, r[a]) <= DeadlineOf(cells, r[b])
    {
      assert r[a] == if a < p then q[a] else if a == p then k else q[a - 1];
      assert r[b] == if b < p then q[b] else if b == p then k else q[b - 1];
      if a == p && p < b - 1 {
        assert DeadlineOf(cells, q[p]) <= DeadlineOf(cells, q[b - 1]);
      }
    }
  }

  lemma InsertAtMembers(q: seq<Key>, k: Key, p: nat, x: Key)
    requires p <= |q|
    ensures x in q[..p] + [k] + q[p..] <==> x in q || x == k
  {
    assert q == q[..p] + q[p..];
  }

  lemma ArmKeeps(s: Server, k: Key, c: Cell)
    requires WellFormed(s) && k in s.cells && c.kind != Off
    ensures WellFormed(Arm(s, k, c))
  {
    var u := Unlink(s, k);
    if Active(s.cells, k) {
      assert k in s.queue;
      WithoutKeeps(s.cells, s.queue, k);
    } else {
      assert k !in s.queue;
    }
    var cells := u.cells[k := c];
    SortedAgree(s.cells, cells, u.queue);
    InsertKeeps(cells, u.queue, k);
  }

  lemma DisarmKeeps(s: Server, k: Key)
    requires WellFormed(s) && k in s.cells
    ensures WellFormed(Disarm(s, k))
  {
    if s.cells[k].kind != Off {
      assert k in s.queue;
      WithoutKeeps(s.cells, s.queue, k);
      SortedAgree(s.cells, Disarm(s, k).cells, Disarm(s, k).queue);
    }
  }

  lemma FireKeeps(s: Server)
    requires WellFormed(s) && Due(s)
    ensures WellFormed(Fire(s))
  {
    var k := s.queue[0];
    assert k in s.queue;
    var c := s.cells[k];
    var signalled := Signalled(s, k);
    assert WellFormed(signalled);
    ArmKeeps(signalled, k, Cell(Periodic, c.period, Add64(c.deadline, c.period)));
    DisarmKeeps(signalled, k);
  }

  // --------------------------------------------------------- the drain measure

  lemma {:induction false} SumAgree(cells: map<Key, Cell>, cells': map<Key, Cell>, q: seq<Key>, now: nat)
    requires forall k | k in q :: k in cells && k in cells' && cells[k] == cells'[k]
    ensures PendingSum(cells, q, now) == PendingSum(cells', q, now)
  {
    if q != [] {
      assert q[0] in q;
      SumAgree(cells, cells', q[1..], now);
    }
  }

  lemma {:induction false} SumAppend(cells: map<Key, Cell>, a: seq<Key>, b: seq<Key>, now: nat)
    ensures PendingSum(cells, a + b, now) == PendingSum(cells, a, now) + PendingSum(cells, b, now)
  {
    if a == [] {
      assert a + b == b;
    } else {
      assert (a + b)[1..] == a[1..] + b;
      SumAppend(cells, a[1..], b, now);
    }
  }

  lemma SumInsert(cells: map<Key, Cell>, q: seq<Key>, k: Key, now: nat)
    requires k in cells
    ensures PendingSum(cells, Insert(cells, q, k), now) == PendingSum(cells, q, now) + Pending(cells[k], now)
  {
    var p := Position(cells, q, DeadlineOf(cells, k));
    SumAppend(cells, q[..p], [k] + q[p..], now);
    SumAppend(cells, [k], q[p..], now);
    SumAppend(cells, q[..p], q[p..], now);
    assert q == q[..p] + q[p..];
    assert q[..p] + [k] + q[p..] == q[..p] + ([k] + q[p..]);
    assert PendingSum(cells, [k], now) == Pending(cells[k], now);
  }

  /** Advancing a due periodic timer by one period leaves one signal less to give. */
  lemma AdvanceOnce(c: Cell, now: nat)
    requires c.kind == Periodic && 0 < c.period && c.deadline <= now
    ensures Pending(c, now) == 1 + Pending(c.(deadline := c.deadline + c.period), now)
  {
    var x := now - c.deadline;
    if x < c.period {
      assert x / c.period == 0;
    } else {
      assert x / c.period == (x - c.period) / c.period + 1 by { DivStep(x, c.period); }
    }
  }

  lemma DivStep(x: nat, p: nat)
    requires 0 < p <= x
    ensures x / p == (x - p) / p + 1
  {
    DivUnique(x, p, (x - p) / p + 1);
  }

  lemma DivUnique(x: nat, p: nat, q: nat)
    requires 0 < p
    requires q * p <= x < (q + 1) * p
    ensures x / p == q
  {
    var d := x / p;
    assert d * p <= x < (d + 1) * p;
    if d < q { MulMono(d + 1, q, p); }
    if q < d { MulMono(q + 1, d, p); }
  }

  lemma MulMono(a: nat, b: nat, p: nat)
    requires a <= b
    ensures a * p <= b * p
  {
  }

  /** Firing takes the first timer off the queue and puts it back in only if it is periodic. */
  lemma FireQueue(s: Server)
    requires WellFormed(s) && Due(s)
    ensures var k, rest := s.queue[0], s.queue[1..];
            && k !in rest && k in s.cells && s.cells[k].kind != Off
            && (forall x | x in rest :: x in s.cells && Fire(s).cells[x] == s.cells[x])
            && Fire(s).queue == (if s.cells[k].kind == Periodic then Insert(Fire(s).cells, rest, k) else rest)
  {
    var k, rest := s.queue[0], s.queue[1..];
    assert k in s.queue;
    assert rest == s.queue[..0] + s.queue[1..];
    forall x
      ensures x in rest <==> x in s.queue && x != k
    {
      DropMembers(s.queue, 0, x);
    }
  }

  lemma FireSum(s: Server)
    requires WellFormed(s) && Due(s) && DrainSafe(s)
    ensures Measure(s) == Measure(Fire(s)) + 1
  {
    var k, rest := s.queue[0], s.queue[1..];
    var after := Fire(s).cells;
    FireQueue(s);
    FirePending(s);
    SumAgree(s.cells, after, rest, s.now);
    assert Measure(s) == Pending(s.cells[k], s.now) + PendingSum(s.cells, rest, s.now);
    if s.cells[k].kind == Periodic {
      SumInsert(after, rest, k, s.now);
    }
  }

  /** Firing leaves the first timer one signal less to give. */
  lemma FirePending(s: Server)
    requires WellFormed(s) && Due(s) && DrainSafe(s)
    ensures var k := s.queue[0];
            k in s.cells && k in Fire(s).cells && Pending(s.cells[k], s.now) == 1 + Pending(Fire(s).cells[k], s.now)
  {
    assert s.queue[0] in s.queue;
    var c := s.cells[s.queue[0]];
    if c.kind == Periodic {
      assert DuePeriodic(s.cells, s.queue[0], s.now);
      AdvanceOnce(c, s.now);
    }
  }

  lemma FireSafe(s: Server)
    requires WellFormed(s) && Due(s) && DrainSafe(s)
    ensures DrainSafe(Fire(s))
  {
    assert s.queue[0] in s.queue;
  }

  /** One signal uses up exactly one unit of the drain measure, and the loop stays safe. */
  lemma FireMeasure(s: Server)
    requires WellFormed(s) && Due(s) && DrainSafe(s)
    ensures Measure(s) == Measure(Fire(s)) + 1
    ensures DrainSafe(Fire(s))
  {
    FireSum(s);
    FireSafe(s);
  }

  /** signal_clients: signal the first timer as long as it is due. */
  ghost function Drain(s: Server): Server
    requires WellFormed(s) && DrainSafe(s)
    decreases Measure(s)
  {
    if Due(s) then
      FireKeeps(s);
      FireMeasure(s);
      Drain(Fire(s))
    else s
  }

  // ------------------------------------------------------------ requests, runs

  predicate InRange(s: Server, tid: int) {
    0 <= tid < s.perClient
  }

  function Target(op: Op): Key
    requires !op.Completed? && !op.Tick? && 0 <= op.tid
  {
    Key(op.cid, op.tid)
  }

  /** What arming stores in the timer; `periodic_ns` is written by `_periodic` only. */
  function Armed(op: Op, cell: Cell, now: nat): Cell
    requires op.OneshotRelative? || op.OneshotAbsolute? || op.SetPeriodic?
  {
    match op
    case OneshotRelative(_, _, ns) => Cell(Relative, cell.period, Add64(now, ns))
    case OneshotAbsolute(_, _, ns) => Cell(Absolute, cell.period, ns)
    case SetPeriodic(_, _, ns) => Cell(Periodic, ns, Add64(now, ns))
  }

  /** Arguments the callers can pass: a connected client and a 64-bit time. */
  predicate Legal(clients: nat, op: Op) {
    match op
    case Tick => true
    case Completed(cid) => cid < clients
    case Stop(cid, _) => cid < clients
    case OneshotRelative(cid, _, ns) => cid < clients && ns < TWO64
    case OneshotAbsolute(cid, _, ns) => cid < clients && ns < TWO64
    case SetPeriodic(cid, _, ns) => cid < clients && ns < TWO64
  }

  /** The state in which the tick handler starts to drain. */
  function Ticked(s: Server): Server {
    s.(now := Add64(s.now, TICK))
  }

  ghost predicate CanStep(s: Server, op: Op) {
    && WellFormed(s)
    && Legal(|s.words|, op)
    && (op.Tick? ==> s.now + TICK < TWO64 && DrainSafe(Ticked(s)))
  }

  ghost function Step(s: Server, op: Op): Server
    requires CanStep(s, op)
  {
    match op
    case Tick => Drain(Ticked(s))
    case Completed(cid) =>
      s.(words := s.words[cid := {}], log := s.log + [Collected(cid, s.words[cid])])
    case Stop(cid, tid) =>
      if !InRange(s, tid) then s else Disarm(s, Target(op))
    case _ =>
      if !InRange(s, op.tid) then s else Arm(s, Target(op), Armed(op, s.cells[Target(op)], s.now))
  }
}
