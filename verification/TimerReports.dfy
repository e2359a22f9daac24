/**
 What the clients of the timer server are told over a run: the completion words, the
 emitted badges, and the conditions under which a run keeps its timing promises.
 */
module TimerReports {
  import opened Words
  import opened TimerModel
  import opened TimerDrain
  import opened TimerTable
  import opened TimerRuns

  // -------------------------------------------------------- completion words

  /** Timer k has fired since its client last asked for its completion word. */
  predicate FiredSince(log: seq<Event>, k: Key) {
    if log == [] then false
    else
      var e := log[|log| - 1];
      if e.Collected? && e.client == k.client then false
      else FiringsOf(e, k) != [] || FiredSince(log[..|log| - 1], k)
  }

  /** Every word handed out so far, and every word as it stands, reports exactly the timers
      that fired since the client last asked. */
  ghost predicate Reports(s: Server) {
    && (forall k: Key | k.client < |s.words| ::
          k.timer in s.words[k.client] <==> FiredSince(s.log, k))
    && (forall i, t: nat | 0 <= i < |s.log| && s.log[i].Collected? ::
          t in s.log[i].bits <==> FiredSince(s.log[..i], Key(s.log[i].client, t)))
  }

  lemma {:induction false} SinceAppend(log: seq<Event>, b: seq<Event>, k: Key)
    requires forall e | e in b :: e.Fired?
    ensures FiredSince(log + b, k) <==> FiredSince(log, k) || History(b, k) != []
    decreases |b|
  {
    if b == [] {
      assert log + b == log;
    } else {
      var e := b[0];
      assert e in b;
      assert log + b == (log + [e]) + b[1..];
      assert (log + [e])[..|log|] == log;
      SinceAppend(log + [e], b[1..], k);
    }
  }

  lemma PrefixOfAppend(log: seq<Event>, b: seq<Event>, i: nat)
    requires i <= |log|
    ensures (log + b)[..i] == log[..i]
  {
  }

  lemma TickReports(s: Server)
    requires CanStep(s, Tick) && Reports(s)
    ensures Reports(Step(s, Tick))
  {
    var u := Ticked(s);
    var r, b := Drain(u), Burst(u);
    DrainKeeps(u);
    DrainLog(u);
    BurstFromTimers(u);
    forall k: Key | k.client < |r.words|
      ensures k.timer in r.words[k.client] <==> FiredSince(r.log, k)
    {
      SinceAppend(s.log, b, k);
      if k in s.cells {
        DrainTimer(u, k);
        DrainWords(u, k);
      } else {
        DrainOtherBits(u, k);
      }
    }
    assert forall i | |s.log| <= i < |r.log| :: r.log[i] in b;
    forall i, t: nat | 0 <= i < |s.log| && r.log[i].Collected?
      ensures t in r.log[i].bits <==> FiredSince(r.log[..i], Key(r.log[i].client, t))
    {
      PrefixOfAppend(s.log, b, i);
    }
  }

  lemma CompletedReports(s: Server, cid: nat)
    requires CanStep(s, Completed(cid)) && Reports(s)
    ensures Reports(Step(s, Completed(cid)))
  {
    var e := Collected(cid, s.words[cid]);
    var r := Step(s, Completed(cid));
    assert r.log[..|s.log|] == s.log;
    forall k: Key | k.client < |r.words|
      ensures k.timer in r.words[k.client] <==> FiredSince(r.log, k)
    {
      assert k.timer in s.words[k.client] <==> FiredSince(s.log, k);
    }
    forall i, t: nat | 0 <= i < |r.log| && r.log[i].Collected?
      ensures t in r.log[i].bits <==> FiredSince(r.log[..i], Key(r.log[i].client, t))
    {
      if i < |s.log| {
        PrefixOfAppend(s.log, [e], i);
      } else {
        assert Key(cid, t).timer in s.words[cid] <==> FiredSince(s.log, Key(cid, t));
      }
    }
  }

  /** Conservation: over every run of the server the completion words are exact. */
  lemma {:induction false} CompletionExact(clients: nat, perClient: nat, ops: seq<Op>)
    requires perClient <= 32 && CanRun(Init(clients, perClient), ops)
    ensures Reports(Run(Init(clients, perClient), ops))
  {
    if ops != [] {
      var i := |ops| - 1;
      var s := Run(Init(clients, perClient), ops[..i]);
      CompletionExact(clients, perClient, ops[..i]);
      match ops[i]
      case Tick => TickReports(s);
      case Completed(cid) => CompletedReports(s, cid);
      case _ =>
        assert Step(s, ops[i]).log == s.log && Step(s, ops[i]).words == s.words;
    }
  }

  // ------------------------------------------------------------------ badges

  ghost predicate LogFromTimers(s: Server) {
    forall e | e in s.log && e.Fired? :: FromTimer(s, e)
  }

  lemma {:induction false} HistoryNonempty(log: seq<Event>, e: Event)
    requires e in log && e.Fired? && 1 <= e.badge
    ensures History(log, Key(e.badge - 1, e.timer)) != []
  {
    if log[0] != e {
      assert e in log[1..];
      HistoryNonempty(log[1..], e);
    }
  }

  lemma StepFromTimers(s: Server, op: Op)
    requires CanStep(s, op) && LogFromTimers(s)
    ensures LogFromTimers(Step(s, op))
  {
    if op.Tick? {
      var u := Ticked(s);
      DrainLog(u);
      DrainKeeps(u);
      BurstFromTimers(u);
      assert forall e | e in Burst(u) :: FromTimer(u, e);
    }
  }

  lemma {:induction false} RunFromTimers(s: Server, ops: seq<Op>)
    requires CanRun(s, ops) && LogFromTimers(s)
    ensures LogFromTimers(Run(s, ops))
  {
    if ops != [] {
      RunFromTimers(s, ops[..|ops| - 1]);
      StepFromTimers(Run(s, ops[..|ops| - 1]), ops[|ops| - 1]);
    }
  }

  /** Every emitted badge is the badge of a connected client that armed the timer before, so
      the notification lookup by badge always finds an entry. */
  lemma BadgesArmed(clients: nat, perClient: nat, ops: seq<Op>, e: Event)
    requires perClient <= 32 && CanRun(Init(clients, perClient), ops)
    requires e in Run(Init(clients, perClient), ops).log && e.Fired?
    ensures 1 <= e.badge <= clients
    ensures exists i :: 0 <= i < |ops| && Arms(ops[i], Key(e.badge - 1, e.timer))
  {
    var s := Init(clients, perClient);
    assert WellFormed(s);
    RunFromTimers(s, ops);
    RunRefines(s, ops);
    var k := Key(e.badge - 1, e.timer);
    var r := Run(s, ops);
    HistoryNonempty(r.log, e);
    assert k in r.cells && Abs(r).history[k] != [];
    ClockOfRun(Abs(s), ops);
    assert k in s.cells && Abs(s).history[k] == [];
    if forall i | 0 <= i < |ops| :: !Arms(ops[i], k) {
      OffStaysSilent(Abs(s), k, ops);
      assert false;
    }
  }

  // --------------------------------------------------- runs without surprises

  /** The requests are legal and no periodic timer gets period 0 or outlives the 64-bit
      clock, which reads s.now + ticks * TICK at the end. */
  ghost predicate WithinHorizon(s: Server, ops: seq<Op>, end: nat) {
    && end < TWO64
    && (forall k | Active(s.cells, k) && s.cells[k].kind == Periodic ::
          0 < s.cells[k].period && end + s.cells[k].period < TWO64)
    && forall i | 0 <= i < |ops| ::
         && Legal(|s.words|, ops[i])
         && (ops[i].SetPeriodic? ==> 0 < ops[i].ns && end + ops[i].ns < TWO64)
  }

  ghost predicate PeriodsWithin(t: Table, end: nat) {
    forall k | k in t.cells && t.cells[k].kind == Periodic ::
      0 < t.cells[k].period && end + t.cells[k].period < TWO64
  }

  lemma {:induction false} PeriodsStayWithin(s: Server, t: Table, ops: seq<Op>, end: nat)
    requires WithinHorizon(s, ops, end) && PeriodsWithin(t, end)
    ensures PeriodsWithin(TableRun(t, ops), end)
  {
    if ops != [] {
      var i := |ops| - 1;
      PeriodsStayWithin(s, t, ops[..i], end);
      assert Legal(|s.words|, ops[i]);
    }
  }

  lemma {:induction false} TicksPrefix(ops: seq<Op>, i: nat)
    requires i <= |ops|
    ensures Ticks(ops[..i]) <= Ticks(ops)
  {
    if i < |ops| {
      var n := |ops| - 1;
      assert ops[..i] == ops[..n][..i];
      TicksPrefix(ops[..n], i);
    } else {
      assert ops[..i] == ops;
    }
  }

  /** A condition callers can check in advance under which every run goes through: each tick
      ends, and no deadline or clock value wraps. */
  lemma {:induction false} HorizonSuffices(s: Server, ops: seq<Op>, end: nat)
    requires WellFormed(s) && WithinHorizon(s, ops, end) && s.now + Ticks(ops) * TICK <= end
    ensures CanRun(s, ops)
  {
    if ops != [] {
      var i := |ops| - 1;
      TicksPrefix(ops, i);
      HorizonSuffices(s, ops[..i], end);
      RunRefines(s, ops[..i]);
      ClockOfRun(Abs(s), ops[..i]);
      PeriodsStayWithin(s, Abs(s), ops[..i], end);
      assert Legal(|s.words|, ops[i]);
      StepWithin(Run(s, ops[..i]), ops[i], end);
    }
  }

  lemma StepWithin(s: Server, op: Op, end: nat)
    requires WellFormed(s) && Legal(|s.words|, op) && PeriodsWithin(Abs(s), end) && end < TWO64
    requires op.Tick? ==> s.now + TICK <= end
    ensures CanStep(s, op)
  {
  }

  // -------------------------------------------- the promises, for the server

  /** SetPeriodic at time t0, any later run that leaves the timer alone: no drift. */
  lemma PeriodicPromise(s: Server, cid: nat, tid: nat, ns: nat, ops: seq<Op>)
    requires CanStep(s, SetPeriodic(cid, tid, ns)) && 0 <= tid < s.perClient
    requires 0 < ns && s.now + ns < TWO64
    requires CanRun(Step(s, SetPeriodic(cid, tid, ns)), ops) && LeftAlone(ops, Key(cid, tid))
    ensures var k, r := Key(cid, tid), Run(Step(s, SetPeriodic(cid, tid, ns)), ops);
            && WellFormed(r)
            && r.now == s.now + Ticks(ops) * TICK
            && NoDriftAt(Abs(r), k, s.now, ns, History(s.log, k))
            && r.now < r.cells[k].deadline <= r.now + ns
  {
    var k, s1 := Key(cid, tid), Step(s, SetPeriodic(cid, tid, ns));
    StepRefines(s, SetPeriodic(cid, tid, ns));
    RunRefines(s1, ops);
    ClockOfRun(Abs(s1), ops);
    NoDrift(Abs(s1), k, ns, ops);
    NextDeadline(Abs(Run(s1, ops)), k, s.now, ns, History(s.log, k));
  }

  /** A one-shot request, any later run that leaves the timer alone: one signal, at the
      first tick that reaches the deadline. */
  lemma OneshotPromise(s: Server, op: Op, ops: seq<Op>)
    requires CanStep(s, op) && (op.OneshotRelative? || op.OneshotAbsolute?) && 0 <= op.tid < s.perClient
    requires CanRun(Step(s, op), ops) && LeftAlone(ops, Target(op))
    ensures var k, r := Target(op), Run(Step(s, op), ops);
            && WellFormed(r)
            && var c := Armed(op, s.cells[k], s.now);
               if Ticks(ops) > 0 && c.deadline <= r.now
               then FiredOnce(Abs(r), k, s.now, c, History(s.log, k))
               else StillWaiting(Abs(r), k, c, History(s.log, k))
  {
    StepRefines(s, op);
    RunRefines(Step(s, op), ops);
    OneShot(Abs(Step(s, op)), Target(op), ops);
  }

  lemma {:induction false} ClockFits(s: Server, ops: seq<Op>)
    requires WellFormed(s) && CanRun(s, ops) && 0 < Ticks(ops)
    ensures s.now + Ticks(ops) * TICK < TWO64
  {
    var i := |ops| - 1;
    RunRefines(s, ops[..i]);
    ClockOfRun(Abs(s), ops[..i]);
    if !ops[i].Tick? {
      ClockFits(s, ops[..i]);
    }
  }

  /** The signal of a relative one-shot is not early if and only if the 64-bit sum does not wrap;
      then it is less than one tick late. When the sum wraps, the first tick gives the signal. */
  lemma RelativeNeverEarlyIff(s: Server, cid: nat, tid: nat, ns: nat, ops: seq<Op>)
    requires CanStep(s, OneshotRelative(cid, tid, ns)) && 0 <= tid < s.perClient
    requires CanRun(Step(s, OneshotRelative(cid, tid, ns)), ops) && LeftAlone(ops, Key(cid, tid))
    ensures var k := Key(cid, tid);
            var before, h := History(s.log, k), History(Run(Step(s, OneshotRelative(cid, tid, ns)), ops).log, k);
            && (|before| < |h| ==> (s.now + ns <= h[|before|].at <==> s.now + ns < TWO64))
            && (|before| < |h| && 0 < ns && s.now + ns < TWO64 ==> h[|before|].at < s.now + ns + TICK)
            && (TWO64 <= s.now + ns && 0 < Ticks(ops) ==> |h| == |before| + 1 && h[|before|].at == s.now + TICK)
  {
    var op := OneshotRelative(cid, tid, ns);
    var s1, k := Step(s, op), Key(cid, tid);
    var r := Run(s1, ops);
    StepRefines(s, op);
    RunRefines(s1, ops);
    ClockOfRun(Abs(s1), ops);
    OneshotPromise(s, op, ops);
    var before, h := History(s.log, k), History(r.log, k);
    assert Abs(r).history[k] == h;
    if 0 < Ticks(ops) {
      ClockFits(s1, ops);
    }
    if |before| < |h| {
      FirstTickOnTime(h[|before|].at, s.now, Add64(s.now, ns));
    }
  }

  /** An absolute one-shot fires at the time it names: one signal, at the first tick that is not
      before it, or at the next tick if that time has passed. Until then it waits. */
  lemma AbsolutePromise(s: Server, cid: nat, tid: nat, ns: nat, ops: seq<Op>)
    requires CanStep(s, OneshotAbsolute(cid, tid, ns)) && tid < s.perClient
    requires CanRun(Step(s, OneshotAbsolute(cid, tid, ns)), ops) && LeftAlone(ops, Key(cid, tid))
    ensures var k, r := Key(cid, tid), Run(Step(s, OneshotAbsolute(cid, tid, ns)), ops);
            var before, h := History(s.log, k), History(r.log, k);
            && r.now == s.now + Ticks(ops) * TICK
            && k in r.cells
            && if 0 < Ticks(ops) && ns <= r.now
               then && r.cells[k].kind == Off
                    && |h| == |before| + 1 && h[..|before|] == before
                    && h[|before|].deadline == ns && ns <= h[|before|].at
                    && if s.now < ns then h[|before|].at < ns + TICK else h[|before|].at == s.now + TICK
               else h == before && r.cells[k].kind != Off && r.cells[k].deadline == ns
  {
    var op := OneshotAbsolute(cid, tid, ns);
    var s1, k := Step(s, op), Key(cid, tid);
    var r := Run(s1, ops);
    StepRefines(s, op);
    RunRefines(s1, ops);
    ClockOfRun(Abs(s1), ops);
    OneshotPromise(s, op, ops);
    var before, h := History(s.log, k), History(r.log, k);
    assert Abs(r).history[k] == h;
    if |before| < |h| {
      FirstTickOnTime(h[|before|].at, s.now, ns);
    }
  }

  /** After Stop the old deadline is gone: no signal until the timer is armed again. */
  lemma StopPromise(s: Server, cid: nat, tid: nat, ops: seq<Op>)
    requires CanStep(s, Stop(cid, tid)) && 0 <= tid < s.perClient
    requires CanRun(Step(s, Stop(cid, tid)), ops)
    requires forall i | 0 <= i < |ops| :: !Arms(ops[i], Key(cid, tid))
    ensures History(Run(Step(s, Stop(cid, tid)), ops).log, Key(cid, tid)) == History(s.log, Key(cid, tid))
  {
    var k, s1 := Key(cid, tid), Step(s, Stop(cid, tid));
    StepRefines(s, Stop(cid, tid));
    RunRefines(s1, ops);
    ClockOfRun(Abs(s1), ops);
    OffStaysSilent(Abs(s1), k, ops);
    assert Abs(Run(s1, ops)).history[k] == Abs(s1).history[k];
  }

  /** A request of one client leaves the timers, words and histories of all others alone. */
  lemma OthersUntouched(s: Server, op: Op, k: Key)
    requires CanStep(s, op) && !op.Tick? && k in s.cells && k.client != op.cid
    ensures var r := Step(s, op);
            && k in r.cells && r.cells[k] == s.cells[k]
            && |r.words| == |s.words| && r.words[k.client] == s.words[k.client]
            && History(r.log, k) == History(s.log, k)
  {
    match op
    case Completed(cid) =>
      HistoryAppend(s.log, [Collected(cid, s.words[cid])], k);
      HistoryOne(Collected(cid, s.words[cid]), k);
    case _ =>
  }
}
