/**
 The timer server as a plain table without a queue: a tick fires everything that is due,
 each timer on its own. The server refines this table over every run, so what is proved
 about single timers of the table holds of the server.
 */
module TimerTable {
  import opened Words
  import opened TimerModel
  import opened TimerDrain

  datatype Table = Table(
    now: nat,
    cells: map<Key, Cell>,
    history: map<Key, seq<Firing>>,  // the signals of each timer so far
    done: set<Key>)                  // signalled since the client last asked

  ghost function Abs(s: Server): Table {
    Table(s.now, s.cells,
          map k | k in s.cells :: History(s.log, k),
          set k | k in s.cells && k.client < |s.words| && k.timer in s.words[k.client])
  }

  ghost function TickTable(t: Table): Table {
    var now := t.now + TICK;
    Table(now,
          map k | k in t.cells :: Settle(t.cells[k], now),
          map k | k in t.history && k in t.cells :: t.history[k] + Firings(t.cells[k], now),
          t.done + set k | k in t.cells && Pending(t.cells[k], now) > 0)
  }

  predicate Names(t: Table, op: Op) {
    !op.Completed? && !op.Tick? && 0 <= op.tid && Target(op) in t.cells
  }

  ghost function TableStep(t: Table, op: Op): Table {
    match op
    case Tick => TickTable(t)
    case Completed(cid) => t.(done := set k | k in t.done && k.client != cid)
    case Stop(_, _) =>
      if Names(t, op) then t.(cells := t.cells[Target(op) := t.cells[Target(op)].(kind := Off)]) else t
    case _ =>
      if Names(t, op) then t.(cells := t.cells[Target(op) := Armed(op, t.cells[Target(op)], t.now)]) else t
  }

  // --------------------------------------------------------------- refinement

  lemma TickTimer(s: Server, k: Key)
    requires CanStep(s, Tick) && k in s.cells
    ensures TimerTicked(s, Step(s, Tick), k)
  {
    DrainTicks(Ticked(s), k);
  }

  /** Table a has the entry for k that a tick makes of table t. */
  ghost predicate EntryTicked(t: Table, a: Table, k: Key) {
    && k in t.cells && k in t.history && k in a.cells && k in a.history
    && a.cells[k] == Settle(t.cells[k], a.now)
    && a.history[k] == t.history[k] + Firings(t.cells[k], a.now)
    && (k in a.done <==> k in t.done || Pending(t.cells[k], a.now) > 0)
  }

  lemma TableTicked(t: Table, a: Table)
    requires a.now == t.now + TICK && a.cells.Keys == a.history.Keys == t.cells.Keys == t.history.Keys
    requires a.done <= a.cells.Keys && t.done <= t.cells.Keys
    requires forall k | k in t.cells :: EntryTicked(t, a, k)
    ensures a == TickTable(t)
  {
    assert a.cells == TickTable(t).cells;
    assert a.history == TickTable(t).history;
    assert a.done == TickTable(t).done;
  }

  lemma TickedEntry(s: Server, r: Server, k: Key)
    requires TimerTicked(s, r, k)
    ensures EntryTicked(Abs(s), Abs(r), k)
  {
  }

  lemma TickedTable(s: Server, r: Server)
    requires r.now == s.now + TICK && r.cells.Keys == s.cells.Keys
    requires forall k | k in s.cells :: TimerTicked(s, r, k)
    ensures Abs(r) == TickTable(Abs(s))
  {
    forall k | k in s.cells
      ensures EntryTicked(Abs(s), Abs(r), k)
    {
      TickedEntry(s, r, k);
    }
    assert Abs(s).history.Keys == s.cells.Keys && Abs(r).history.Keys == r.cells.Keys;
    TableTicked(Abs(s), Abs(r));
  }

  lemma TickRefines(s: Server)
    requires CanStep(s, Tick)
    ensures WellFormed(Step(s, Tick)) && |Step(s, Tick).words| == |s.words|
    ensures Abs(Step(s, Tick)) == TickTable(Abs(s))
  {
    DrainKeeps(Ticked(s));
    forall k | k in s.cells
      ensures TimerTicked(s, Step(s, Tick), k)
    {
      TickTimer(s, k);
    }
    TickedTable(s, Step(s, Tick));
  }

  lemma CompletedRefines(s: Server, cid: nat)
    requires CanStep(s, Completed(cid))
    ensures WellFormed(Step(s, Completed(cid)))
    ensures Abs(Step(s, Completed(cid))) == TableStep(Abs(s), Completed(cid))
  {
    var r := Step(s, Completed(cid));
    var a, b := Abs(r), TableStep(Abs(s), Completed(cid));
    forall k | k in s.cells
      ensures a.history[k] == b.history[k] && (k in a.done <==> k in b.done)
    {
      HistoryAppend(s.log, [Collected(cid, s.words[cid])], k);
      HistoryOne(Collected(cid, s.words[cid]), k);
    }
    assert a.history == b.history;
    assert a.done == b.done;
  }

  lemma SameTable(s: Server, r: Server)
    requires WellFormed(s) && WellFormed(r)
    requires r.now == s.now && r.log == s.log && r.words == s.words && r.cells.Keys == s.cells.Keys
    ensures Abs(r) == Abs(s).(cells := r.cells)
  {
    assert forall k :: k in s.cells <==> k in r.cells;
    assert Abs(r).history == Abs(s).history;
    assert Abs(r).done == Abs(s).done;
  }

  lemma StopRefines(s: Server, op: Op)
    requires CanStep(s, op) && op.Stop?
    ensures WellFormed(Step(s, op)) && |Step(s, op).words| == |s.words|
    ensures Abs(Step(s, op)) == TableStep(Abs(s), op)
  {
    if InRange(s, op.tid) {
      DisarmKeeps(s, Target(op));
      assert Step(s, op).cells.Keys == s.cells.Keys;
      SameTable(s, Step(s, op));
    }
  }

  lemma ArmRefines(s: Server, op: Op)
    requires CanStep(s, op) && (op.OneshotRelative? || op.OneshotAbsolute? || op.SetPeriodic?)
    ensures WellFormed(Step(s, op)) && |Step(s, op).words| == |s.words|
    ensures Abs(Step(s, op)) == TableStep(Abs(s), op)
  {
    if InRange(s, op.tid) {
      ArmKeeps(s, Target(op), Armed(op, s.cells[Target(op)], s.now));
      assert Step(s, op).cells.Keys == s.cells.Keys;
      SameTable(s, Step(s, op));
    }
  }

  /** One operation of the server is one step of the table. */
  lemma StepRefines(s: Server, op: Op)
    requires CanStep(s, op)
    ensures WellFormed(Step(s, op)) && |Step(s, op).words| == |s.words|
    ensures Abs(Step(s, op)) == TableStep(Abs(s), op)
  {
    match op
    case Tick => TickRefines(s);
    case Completed(cid) => CompletedRefines(s, cid);
    case Stop(_, _) => StopRefines(s, op);
    case _ => ArmRefines(s, op);
  }

  ghost predicate CanRun(s: Server, ops: seq<Op>)
    decreases |ops|, 0
  {
    ops == [] || (CanRun(s, ops[..|ops| - 1]) && CanStep(Run(s, ops[..|ops| - 1]), ops[|ops| - 1]))
  }

  ghost function Run(s: Server, ops: seq<Op>): Server
    requires CanRun(s, ops)
    decreases |ops|, 1
  {
    if ops == [] then s else Step(Run(s, ops[..|ops| - 1]), ops[|ops| - 1])
  }

  ghost function TableRun(t: Table, ops: seq<Op>): Table {
    if ops == [] then t else TableStep(TableRun(t, ops[..|ops| - 1]), ops[|ops| - 1])
  }

  /** The server and the table agree after every sequence of operations. */
  lemma {:induction false} RunRefines(s: Server, ops: seq<Op>)
    requires WellFormed(s) && CanRun(s, ops)
    ensures WellFormed(Run(s, ops)) && |Run(s, ops).words| == |s.words|
    ensures Abs(Run(s, ops)) == TableRun(Abs(s), ops)
  {
    if ops != [] {
      RunRefines(s, ops[..|ops| - 1]);
      StepRefines(Run(s, ops[..|ops| - 1]), ops[|ops| - 1]);
    }
  }
}
