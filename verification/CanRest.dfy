/**
 Transmission never locks up: from every state that some interleaving reaches, the threads and
 the controller can go on, without further calls, until everything is at rest and the
 queue is empty. A measure of the work that is left goes down with each step taken.
 */
module CanRest {
  import opened CanInf
  import opened Ring
  import opened RingSteps
  import opened CanTransmit
  import opened CanProgress

  // ---------------------------------------------------------- the work that is left

  const FLAG: nat := 60            // a TXnIF to be served
  const REQUEST: nat := 64         // a TXREQ, which becomes a TXnIF
  const IN_HAND: nat := 65         // a frame taken from the queue, which becomes a TXREQ
  const QUEUED: nat := 66
  const SCAN: nat := 70            // a buffer start_xmit has to look at and may flag

  function One(b: bool): nat {
    if b then 1 else 0
  }

  function Count(b: Bits): nat {
    One(b.b0) + One(b.b1) + One(b.b2)
  }

  function CountBelow(b: Bits, n: nat): nat {
    One(b.b0 && 0 < n) + One(b.b1 && 1 < n) + One(b.b2 && 2 < n)
  }

  /** What the loop of transmit_message has to do below buffer n, and the requests it will make. */
  function LoopWork(tx: Bits, rts: Bits, n: nat): nat {
    n + 15 * CountBelow(tx, n) + REQUEST * Count(rts)
  }

  function PopWork(c: Consumer<Frame>): nat {
    match c
    case CIdle => 0
    case CCheck => 20
    case CLock => 19
    case CCopy => 18
    case CAdvance(_) => 17
    case CUnlock(_) => 16 + IN_HAND
    case CDone(got) => if got.Some? then 15 + IN_HAND else 15
  }

  function IrqWork(irq: Irq, cons: Consumer<Frame>, flagged: bool): nat {
    match irq
    case HIdle => if flagged then 3 else 0
    case HRead => 2
    case HClear(_) => 1
    case HScan(tx, rts, n) => 5 + LoopWork(tx, rts, n)
    case HPop(tx, rts, k) => PopWork(cons) + LoopWork(tx, rts, k)
    case HLoad(tx, rts, k, _) => 14 + IN_HAND + LoopWork(tx, rts, k)
    case HStopLock(tx, rts, k) => 14 + LoopWork(tx, rts, k)
    case HStopSet(tx, rts, k) => 13 + LoopWork(tx, rts, k)
    case HStopUnlock(tx, rts, k) => 12 + LoopWork(tx, rts, k)
    case HRts(rts) => 4 + REQUEST * Count(rts)
  }

  /** An attempt that can push its frame. */
  const ATTEMPT: nat := 3 * SCAN + 12 + QUEUED

  /** After the current attempt: another one if it did not push its frame. */
  function Rest(ok: bool): nat {
    if ok then 0 else ATTEMPT
  }

  function PushWork(p: Producer<Frame>, full: bool): nat {
    match p
    case PIdle => 0
    case PCheck(_) => if full then 3 * SCAN + 7 + ATTEMPT else 3 * SCAN + 11 + QUEUED
    case PLock(_) => 3 * SCAN + 10 + QUEUED
    case PCopy(_) => 3 * SCAN + 9 + QUEUED
    case PAdvance(_) => 3 * SCAN + 8 + QUEUED
    case PUnlock(_) => 3 * SCAN + 7
    case PDone(_, ok) => 3 * SCAN + 6 + Rest(ok)
  }

  /** The buffers from i on that start_xmit has still to look at. */
  function Unseen(i: nat): nat {
    if i < TXB_NUM then TXB_NUM - i else 0
  }

  function RpcWork(rpc: Rpc, prod: Producer<Frame>, full: bool): nat {
    match rpc
    case RIdle => 0
    case RTry(_) => ATTEMPT
    case RPush(_) => PushWork(prod, full)
    case RTest(_, ok) => 3 * SCAN + 5 + Rest(ok)
    case RLock(_, ok) => 3 * SCAN + 4 + Rest(ok)
    case RScan(_, ok, i) => SCAN * Unseen(i) + 3 + Rest(ok)
    case RFlag(_, ok, i) => SCAN * Unseen(i) + 2 + Rest(ok)
    case RResume(_, ok, i) => SCAN * Unseen(i + 1) + 4 + Rest(ok)
    case RUnlock(_, ok) => 2 + Rest(ok)
    case REnd(_, ok) => 1 + Rest(ok)
  }

  function Length(s: Tx): nat {
    if Shape(s) then |Queue(s.ring)| else 0
  }

  predicate Full(s: Tx) {
    Length(s) + 1 == |s.ring.slots|
  }

  function Work(s: Tx): nat {
    QUEUED * Length(s) + REQUEST * Count(s.txreq) + FLAG * Count(s.txif)
    + IrqWork(s.irq, s.ring.cons, s.txif.Any()) + RpcWork(s.rpc, s.ring.prod, Full(s))
  }

  // -------------------------------------------------------- each step takes some off

  lemma SetCount(b: Bits, i: nat)
    requires i < TXB_NUM
    ensures Count(b.Set(i, true)) == Count(b) + One(!b.Get(i))
    ensures Count(b.Set(i, false)) == Count(b) - One(b.Get(i))
    ensures b.Set(i, true).Any()
  {
  }

  lemma OrCount(a: Bits, b: Bits)
    ensures Count(a.Or(b)) <= Count(a) + Count(b)
  {
  }

  lemma MinusCount(a: Bits, b: Bits)
    requires Below(b, a)
    ensures Count(a.Minus(b)) == Count(a) - Count(b)
    ensures CountBelow(b, TXB_NUM) == Count(b)
    ensures b.Any() ==> 0 < Count(b)
  {
    assert b.Get(0) ==> a.Get(0);
    assert b.Get(1) ==> a.Get(1);
    assert b.Get(2) ==> a.Get(2);
  }

  lemma PushDrops(s: Tx)
    requires Conserves(s) && s.rpc.RPush? && RpcReady(s)
    ensures Work(RpcStep(s)) < Work(s)
  {
    FullAndEmpty(s.ring.slots, s.ring.head, s.ring.tail);
    if !s.ring.prod.PDone? {
      ProducerSimulates(s.ring);
      var r := StepProducer(s.ring);
      FullAndEmpty(r.slots, r.head, r.tail);
    }
  }

  lemma FlagDrops(s: Tx)
    requires s.rpc.RFlag? && RpcReady(s)
    ensures Work(RpcStep(s)) < Work(s)
  {
    SetCount(s.txif, s.rpc.i);
    assert RpcStep(s) == s.(rpc := RResume(s.rpc.frame, s.rpc.ok, s.rpc.i), txif := s.txif.Set(s.rpc.i, true));
  }

  lemma ResumeDrops(s: Tx)
    requires s.rpc.RResume? && RpcReady(s)
    ensures Work(RpcStep(s)) < Work(s)
  {
    assert RpcStep(s) == s.(rpc := RScan(s.rpc.frame, s.rpc.ok, s.rpc.i + 1), xmitStopped := false);
  }

  lemma LookDrops(s: Tx)
    requires s.rpc.RScan? && RpcReady(s)
    ensures Work(RpcStep(s)) < Work(s)
  {
    assert RpcStep(s) == s.(rpc := RpcStep(s).rpc);
  }

  lemma TryDrops(s: Tx)
    requires RpcReady(s) && s.rpc.RTry? && !Full(s)
    ensures Work(RpcStep(s)) < Work(s)
  {
    assert RpcStep(s) == s.(rpc := RPush(s.rpc.frame), ring := s.ring.(prod := PCheck(s.rpc.frame)));
  }

  lemma OtherRpcDrops(s: Tx)
    requires RpcReady(s) && !s.rpc.RPush? && !s.rpc.RTry? && !Scanning(s.rpc)
    ensures Work(RpcStep(s)) < Work(s)
  {
    var r := RpcStep(s);
    assert r == s.(rpc := r.rpc, txbLock := r.txbLock, returned := r.returned);
  }

  lemma RpcDrops(s: Tx)
    requires Conserves(s) && Progress(s) && RpcReady(s) && (s.rpc.RTry? ==> !Full(s))
    ensures Work(RpcStep(s)) < Work(s)
  {
    if s.rpc.RPush? {
      PushDrops(s);
    } else if s.rpc.RFlag? {
      FlagDrops(s);
    } else if s.rpc.RResume? {
      ResumeDrops(s);
    } else if s.rpc.RScan? {
      LookDrops(s);
    } else if s.rpc.RTry? {
      TryDrops(s);
    } else {
      OtherRpcDrops(s);
    }
  }

  lemma RoomHelps(rpc: Rpc, prod: Producer<Frame>)
    ensures RpcWork(rpc, prod, false) <= RpcWork(rpc, prod, true)
  {
  }

  lemma PopEnds(s: Tx)
    requires s.irq.HPop? && IrqReady(s) && s.ring.cons.CDone?
    ensures Work(IrqStep(s)) < Work(s)
  {
    var r := IrqStep(s);
    assert r == s.(irq := r.irq, ring := s.ring.(cons := CIdle));
  }

  lemma PopMoves(s: Tx)
    requires Conserves(s) && s.irq.HPop? && IrqReady(s) && !s.ring.cons.CDone?
    ensures var r := IrqStep(s);
            && r == s.(ring := r.ring) && |r.ring.slots| == |s.ring.slots| && r.ring.prod == s.ring.prod
            && Length(s) < |s.ring.slots|
            && Length(r) == Length(s) - One(s.ring.cons.CAdvance?)
            && PopWork(r.ring.cons) <= PopWork(s.ring.cons) - 1 + if s.ring.cons.CAdvance? then IN_HAND else 0
  {
    FullAndEmpty(s.ring.slots, s.ring.head, s.ring.tail);
    ConsumerSimulates(s.ring);
  }

  lemma PopDrops(s: Tx)
    requires Conserves(s) && s.irq.HPop? && IrqReady(s)
    ensures Work(IrqStep(s)) < Work(s)
  {
    if s.ring.cons.CDone? {
      PopEnds(s);
    } else {
      PopMoves(s);
      RoomHelps(s.rpc, s.ring.prod);
    }
  }

  lemma ClearDrops(s: Tx)
    requires IrqOk(s) && IrqReady(s) && s.irq.HClear?
    ensures Work(IrqStep(s)) < Work(s)
  {
    MinusCount(s.txif, s.irq.tx);
  }

  lemma NextBelow(tx: Bits, n: nat)
    requires 0 < n <= TXB_NUM
    ensures CountBelow(tx, n) == CountBelow(tx, n - 1) + One(tx.Get(n - 1))
  {
  }

  lemma LoopDrops(s: Tx)
    requires IrqOk(s) && IrqReady(s) && s.irq.HScan?
    ensures Work(IrqStep(s)) < Work(s)
  {
    var r := IrqStep(s);
    if s.irq.n == 0 {
      assert r == s.(irq := HRts(s.irq.rts));
    } else {
      NextBelow(s.irq.tx, s.irq.n);
      assert r == s.(irq := r.irq, ring := r.ring) && r.ring.cons.CIdle? == !s.irq.tx.Get(s.irq.n - 1);
      assert r.ring == s.ring.(cons := r.ring.cons);
    }
  }

  lemma LoadDrops(s: Tx)
    requires IrqOk(s) && IrqReady(s) && s.irq.HLoad?
    ensures Work(IrqStep(s)) < Work(s)
  {
    SetCount(s.irq.rts, s.irq.i);
  }

  lemma OtherIrqDrops(s: Tx)
    requires IrqReady(s) && !s.irq.HPop? && !s.irq.HClear? && !s.irq.HScan? && !s.irq.HLoad?
    ensures Work(IrqStep(s)) < Work(s)
  {
    if s.irq.HRts? {
      OrCount(s.txreq, s.irq.rts);
    }
  }

  lemma IrqDrops(s: Tx)
    requires Conserves(s) && Progress(s) && IrqReady(s)
    ensures Work(IrqStep(s)) < Work(s)
  {
    match s.irq
    case HPop(_, _, _) => PopDrops(s);
    case HClear(_) => ClearDrops(s);
    case HScan(_, _, _) => LoopDrops(s);
    case HLoad(_, _, _, _) => LoadDrops(s);
    case _ => OtherIrqDrops(s);
  }

  lemma TransmittedDrops(s: Tx, i: nat)
    requires Enabled(s, Transmitted(i)) && s.irq.HIdle?
    ensures Work(Step(s, Transmitted(i))) < Work(s)
  {
    SetCount(s.txreq, i);
    SetCount(s.txif, i);
  }

  lemma InterruptDrops(s: Tx)
    requires s.irq.HIdle? && s.txif.Any()
    ensures Work(Step(s, Interrupt)) < Work(s)
  {
  }

  // ------------------------------------------------------- some step can be taken

  ghost predicate Inv(s: Tx) {
    Conserves(s) && Accounted(s) && Progress(s) && 1 < |s.ring.slots|
  }

  /** No call is under way, the callback is idle, and the controller has nothing to send or report. */
  predicate AtRest(s: Tx) {
    s.rpc.RIdle? && s.irq.HIdle? && !Busy(s)
  }

  /** A callback that cannot go on waits for a lock whose holder can. */
  lemma HolderCanMove(s: Tx)
    requires Inv(s) && !s.irq.HIdle? && !IrqReady(s)
    ensures RpcReady(s) && !s.rpc.RTry?
  {
    if s.irq.HPop? {
      assert s.ring.cons.CLock? && s.ring.lock == ByProducer;
    } else {
      assert s.irq.HStopLock? && s.txbLock == TxbRpc;
    }
  }

  /** While the callback is idle, an attempt that is under way can go on. */
  lemma AttemptCanMove(s: Tx)
    requires Inv(s) && s.irq.HIdle? && !s.rpc.RIdle? && !s.rpc.RTry?
    ensures RpcReady(s)
  {
    if s.rpc.RPush? {
      assert s.ring.cons == CIdle && !s.ring.lock.ByConsumer?;
    } else if s.rpc.RLock? {
      assert s.txbLock == TxbFree;
    }
  }

  /** When nothing else is going on, the queue is empty and a frame that waits can be pushed. */
  lemma RetryCanMove(s: Tx)
    requires Inv(s) && s.irq.HIdle? && s.rpc.RTry? && !Busy(s)
    ensures RpcReady(s) && !Full(s)
  {
    assert Queue(s.ring) == [];
  }

  /** The step to take next. */
  function NextStep(s: Tx): Action {
    if !s.irq.HIdle? then (if IrqReady(s) then IrqMoves else RpcMoves)
    else if !s.rpc.RIdle? && !s.rpc.RTry? then RpcMoves
    else if s.txreq.b0 then Transmitted(0)
    else if s.txreq.b1 then Transmitted(1)
    else if s.txreq.b2 then Transmitted(2)
    else if s.txif.Any() then Interrupt
    else RpcMoves
  }

  lemma NextDrops(s: Tx)
    requires Inv(s) && !AtRest(s)
    ensures Enabled(s, NextStep(s)) && !NextStep(s).Call? && Work(Step(s, NextStep(s))) < Work(s)
  {
    var a := NextStep(s);
    if a.IrqMoves? {
      IrqDrops(s);
    } else if a.Transmitted? {
      TransmittedDrops(s, a.i);
    } else if a.Interrupt? {
      InterruptDrops(s);
    } else {
      if !s.irq.HIdle? {
        HolderCanMove(s);
      } else if s.rpc.RTry? {
        RetryCanMove(s);
      } else {
        AttemptCanMove(s);
      }
      RpcDrops(s);
    }
  }

  lemma StepSlots(s: Tx, a: Action)
    ensures |Step(s, a).ring.slots| == |s.ring.slots|
  {
  }

  // ------------------------------------------------------------------- runs

  lemma {:induction false} ExecJoins(s: Tx, a: seq<Action>, b: seq<Action>)
    ensures Exec(s, a + b) == Exec(Exec(s, a), b)
    decreases |b|
  {
    if b == [] {
      assert a + b == a;
    } else {
      var n := |b| - 1;
      assert (a + b)[..|a + b| - 1] == a + b[..n];
      ExecJoins(s, a, b[..n]);
    }
  }

  lemma ExecOne(s: Tx, a: Action)
    ensures Exec(s, [a]) == Step(s, a)
  {
    assert [a][..0] == [];
    assert Exec(s, []) == s;
  }

  predicate NoCalls(acts: seq<Action>) {
    forall i | 0 <= i < |acts| :: !acts[i].Call?
  }

  lemma StepKeepsInv(s: Tx, a: Action)
    requires Inv(s) && Enabled(s, a)
    ensures Inv(Step(s, a))
  {
    ConservesStep(s, a);
    StepProgress(s, a);
    StepSlots(s, a);
  }

  lemma Prepend(s: Tx, a: Action, rest: seq<Action>) returns (acts: seq<Action>)
    requires !a.Call? && NoCalls(rest)
    ensures NoCalls(acts) && Exec(s, acts) == Exec(Step(s, a), rest)
  {
    ExecOne(s, a);
    ExecJoins(s, [a], rest);
    acts := [a] + rest;
  }

  lemma {:induction false} ComesToRest(s: Tx) returns (acts: seq<Action>)
    requires Inv(s)
    ensures NoCalls(acts) && AtRest(Exec(s, acts))
    decreases Work(s)
  {
    if AtRest(s) {
      acts := [];
      assert Exec(s, acts) == s;
    } else {
      NextDrops(s);
      StepKeepsInv(s, NextStep(s));
      var rest := ComesToRest(Step(s, NextStep(s)));
      acts := Prepend(s, NextStep(s), rest);
    }
  }

  lemma {:induction false} SlotsOfRun(slots: seq<Frame>, acts: seq<Action>)
    ensures |Exec(InitTx(slots), acts).ring.slots| == |slots|
  {
    if acts != [] {
      SlotsOfRun(slots, acts[..|acts| - 1]);
      StepSlots(Exec(InitTx(slots), acts[..|acts| - 1]), acts[|acts| - 1]);
    }
  }

  /** From every reachable state some continuation without new calls ends at rest with an empty
      queue, every frame of the calls so far having been sent or overwritten. */
  lemma AlwaysCanRest(slots: seq<Frame>, acts: seq<Action>) returns (more: seq<Action>)
    requires 1 < |slots|
    ensures NoCalls(more)
    ensures var s := Exec(InitTx(slots), acts + more);
            AtRest(s) && Shape(s) && Queue(s.ring) == [] && s.sent + s.lost == multiset(s.returned)
  {
    ProgressOverRuns(slots, acts);
    ConservationOfFrames(slots, acts);
    SlotsOfRun(slots, acts);
    more := ComesToRest(Exec(InitTx(slots), acts));
    ExecJoins(InitTx(slots), acts, more);
    AtRestAllSent(slots, acts + more);
  }

  /** A queue of one slot holds no frame at all: then a call never gets beyond its retry loop. */
  lemma OneSlotIsFull(slots: seq<Frame>, acts: seq<Action>)
    requires |slots| == 1
    ensures Exec(InitTx(slots), acts).returned == [] && Full(Exec(InitTx(slots), acts))
  {
    ConservationOfFrames(slots, acts);
    SlotsOfRun(slots, acts);
    var s := Exec(InitTx(slots), acts);
    FullAndEmpty(s.ring.slots, s.ring.head, s.ring.tail);
    NothingPushed(slots, acts);
  }

  lemma {:induction false} NothingPushed(slots: seq<Frame>, acts: seq<Action>)
    requires |slots| == 1
    ensures Exec(InitTx(slots), acts).ring.pushed == []
  {
    if acts != [] {
      var s, a := Exec(InitTx(slots), acts[..|acts| - 1]), acts[|acts| - 1];
      NothingPushed(slots, acts[..|acts| - 1]);
      ConservationOfFrames(slots, acts[..|acts| - 1]);
      SlotsOfRun(slots, acts[..|acts| - 1]);
      PushesNothing(s, a);
    }
  }

  lemma PushesNothing(s: Tx, a: Action)
    requires Conserves(s) && |s.ring.slots| == 1
    ensures Step(s, a).ring.pushed == s.ring.pushed
  {
  }
}
