/**
 Transmission makes progress under every interleaving of can_send, the interrupt callback and
 the controller: as long as a frame is queued, something is under way that will bring the
 callback to the queue, and when everything has come to rest the queue is empty.
 */
module CanProgress {
  import opened CanInf
  import opened Ring
  import opened RingSteps
  import opened CanTransmit

  /** The buffers the callback has loaded and not yet requested to send. */
  function Loaded(irq: Irq): Bits {
    match irq
    case HScan(_, rts, _) => rts
    case HPop(_, rts, _) => rts
    case HLoad(_, rts, _, _) => rts
    case HStopLock(_, rts, _) => rts
    case HStopSet(_, rts, _) => rts
    case HStopUnlock(_, rts, _) => rts
    case HRts(rts) => rts
    case _ => NONE
  }

  /** The callback has cleared the flag of buffer i and may still load the buffer. */
  predicate Serves(irq: Irq, cons: Consumer<Frame>, i: nat) {
    match irq
    case HScan(tx, _, n) => tx.Get(i) && i < n
    case HPop(tx, _, k) => tx.Get(i) && (i < k || (i == k && cons != CDone(None)))
    case HLoad(tx, _, k, _) => tx.Get(i) && i <= k
    case HStopLock(tx, _, k) => tx.Get(i) && i < k
    case HStopSet(tx, _, k) => tx.Get(i) && i < k
    case HStopUnlock(tx, _, k) => tx.Get(i) && i < k
    case _ => false
  }

  /** The callback has found the queue empty for buffer i and not yet set xmit_stopped. */
  predicate Stopping(irq: Irq, cons: Consumer<Frame>, i: nat) {
    match irq
    case HPop(_, _, k) => i == k && cons == CDone(None)
    case HStopLock(_, _, k) => i == k
    case HStopSet(_, _, k) => i == k
    case _ => false
  }

  /** Buffer i belongs to the callback: it is loaded or may still be loaded. */
  predicate Claimed(s: Tx, i: nat) {
    Serves(s.irq, s.ring.cons, i) || Loaded(s.irq).Get(i)
  }

  /** Buffer i is being sent, its completion waits to be served, or the callback has it: the
      callback will look into the queue on behalf of it. */
  predicate Active(s: Tx, i: nat) {
    s.txreq.Get(i) || s.txif.Get(i) || Claimed(s, i)
  }

  predicate Covered(s: Tx, i: nat) {
    Active(s, i) || Stopping(s.irq, s.ring.cons, i)
  }

  predicate SomeActive(s: Tx) {
    Active(s, 0) || Active(s, 1) || Active(s, 2)
  }

  /** The buffers below i are covered. */
  predicate CoveredTo(s: Tx, i: nat) {
    (0 < i ==> Covered(s, 0)) && (1 < i ==> Covered(s, 1)) && (2 < i ==> Covered(s, 2))
  }

  /** Some buffer is being sent, or its completion is waiting to be served. */
  predicate Busy(s: Tx) {
    s.txreq.Any() || s.txif.Any()
  }

  /** The current attempt has not finished looking for a free buffer. */
  predicate Starting(rpc: Rpc) {
    !rpc.RIdle? && !rpc.RTry? && !rpc.REnd?
  }

  // ---------------------------------------------------------- the invariant

  /** A queued frame has something that will move it. */
  predicate NotStuck(s: Tx)
    requires Shape(s)
  {
    Queue(s.ring) != [] ==> SomeActive(s) || Starting(s.rpc)
  }

  /** Transmission is stopped, or some buffer will bring the callback to the queue, or the
      callback is about to stop transmission. */
  predicate KeepsGoing(s: Tx) {
    !s.xmitStopped ==> Covered(s, 0) || Covered(s, 1) || Covered(s, 2)
  }

  /** A buffer holds a frame only while the frame is loaded or being sent. */
  predicate Holds(s: Tx, i: nat)
    requires |s.buffers| == TXB_NUM && i < TXB_NUM
  {
    s.buffers[i].Some? ==> s.txreq.Get(i) || Loaded(s.irq).Get(i)
  }

  predicate AllHold(s: Tx) {
    |s.buffers| == TXB_NUM && Holds(s, 0) && Holds(s, 1) && Holds(s, 2)
  }

  predicate Below(tx: Bits, flags: Bits) {
    forall i | 0 <= i < TXB_NUM :: tx.Get(i) ==> flags.Get(i)
  }

  predicate IrqOk(s: Tx) {
    match s.irq
    case HClear(tx) => tx.Any() && Below(tx, s.txif)
    case HScan(_, _, n) => n <= TXB_NUM
    case HPop(tx, _, k) => k < TXB_NUM && tx.Get(k)
    case HLoad(tx, _, k, _) => k < TXB_NUM && tx.Get(k)
    case HStopLock(_, _, k) => k < TXB_NUM
    case HStopSet(_, _, k) => k < TXB_NUM
    case HStopUnlock(_, _, k) => k < TXB_NUM
    case _ => true
  }

  predicate Scanning(rpc: Rpc) {
    rpc.RScan? || rpc.RFlag? || rpc.RResume?
  }

  /** What the program points of start_xmit mean: what has been passed is covered. */
  predicate RpcOk(s: Tx) {
    match s.rpc
    case RLock(_, _) => s.xmitStopped
    case RScan(_, _, i) => i <= TXB_NUM && CoveredTo(s, i) && (!s.xmitStopped ==> 0 < i)
    case RFlag(_, _, i) => i < TXB_NUM && CoveredTo(s, i) && (!s.xmitStopped ==> 0 < i)
    case RResume(_, _, i) => i < TXB_NUM && CoveredTo(s, i + 1)
    case RUnlock(_, _) => CoveredTo(s, TXB_NUM)
    case _ => true
  }

  /** The holders of txb_lock. */
  predicate LockOk(s: Tx) {
    && (s.txbLock == TxbRpc <==> Scanning(s.rpc) || s.rpc.RUnlock?)
    && (s.txbLock == TxbIrq <==> s.irq.HStopSet? || s.irq.HStopUnlock?)
  }

  /** Outside a scan, transmission that is not stopped covers all buffers. */
  predicate RunningOk(s: Tx) {
    !s.xmitStopped && !Scanning(s.rpc) ==> CoveredTo(s, TXB_NUM)
  }

  ghost predicate Progress(s: Tx) {
    && Shape(s)
    && IrqOk(s) && RpcOk(s) && LockOk(s) && RunningOk(s)
    && NotStuck(s) && AllHold(s)
  }

  /** The invariant says that transmission keeps going. */
  lemma ProgressKeepsGoing(s: Tx)
    requires Progress(s)
    ensures KeepsGoing(s)
  {
  }

  /** The callback stops transmission for one buffer at a time, so of three covered buffers
      some are active. */
  lemma CoveredMeansActive(s: Tx)
    requires CoveredTo(s, TXB_NUM)
    ensures SomeActive(s)
  {
  }

  // ------------------------------------------------- what a step does to a buffer

  /** The callback finds the queue empty. */
  predicate FindsEmpty(s: Tx) {
    s.irq.HPop? && s.ring.cons.CCheck? && s.ring.tail == s.ring.head
  }

  /** The RPC thread only sets flags, and clears or leaves xmit_stopped. */
  lemma RpcFlags(s: Tx)
    ensures var r := RpcStep(s);
            && r.txreq == s.txreq && r.irq == s.irq && r.ring.cons == s.ring.cons && r.buffers == s.buffers
            && r.txif == (if RpcReady(s) && s.rpc.RFlag? then s.txif.Set(s.rpc.i, true) else s.txif)
  {
  }

  lemma RpcKeepsActive(s: Tx, i: nat)
    requires i < TXB_NUM
    ensures Active(s, i) ==> Active(RpcStep(s), i)
    ensures Covered(s, i) ==> Covered(RpcStep(s), i)
    ensures s.rpc.RFlag? && s.rpc.i == i && RpcReady(s) ==> Active(RpcStep(s), i)
  {
    RpcFlags(s);
  }

  lemma RpcKeepsCovered(s: Tx, n: nat)
    ensures CoveredTo(s, n) ==> CoveredTo(RpcStep(s), n)
    ensures SomeActive(s) ==> SomeActive(RpcStep(s))
  {
    RpcKeepsActive(s, 0);
    RpcKeepsActive(s, 1);
    RpcKeepsActive(s, 2);
  }

  lemma TransmittedKeepsActive(s: Tx, j: nat, i: nat)
    requires i < TXB_NUM && Enabled(s, Transmitted(j))
    ensures Active(s, i) ==> Active(Step(s, Transmitted(j)), i)
    ensures Covered(s, i) ==> Covered(Step(s, Transmitted(j)), i)
  {
  }

  lemma IrqKeepsActive(s: Tx, i: nat)
    requires i < TXB_NUM && IrqOk(s) && IrqReady(s) && (s.irq.HPop? <==> !s.ring.cons.CIdle?)
    ensures Active(s, i) && !FindsEmpty(s) ==> Active(IrqStep(s), i)
  {
  }

  /** A buffer for which the queue is found empty is covered until xmit_stopped is set. */
  lemma IrqKeepsStopping(s: Tx, i: nat)
    requires i < TXB_NUM && IrqOk(s) && IrqReady(s) && (s.irq.HPop? <==> !s.ring.cons.CIdle?)
    ensures FindsEmpty(s) && Active(s, i) ==> Covered(IrqStep(s), i)
    ensures Stopping(s.irq, s.ring.cons, i) && !s.irq.HStopSet? ==> Stopping(IrqStep(s).irq, IrqStep(s).ring.cons, i)
  {
  }

  lemma IrqKeepsCovered(s: Tx, i: nat)
    requires i < TXB_NUM && IrqOk(s) && IrqReady(s) && (s.irq.HPop? <==> !s.ring.cons.CIdle?)
    ensures Active(s, i) && !FindsEmpty(s) ==> Active(IrqStep(s), i)
    ensures Covered(s, i) && !s.irq.HStopSet? ==> Covered(IrqStep(s), i)
  {
    IrqKeepsActive(s, i);
    IrqKeepsStopping(s, i);
  }

  lemma IrqKeepsShape(s: Tx)
    requires IrqOk(s) && IrqReady(s)
    ensures IrqOk(IrqStep(s))
  {
  }

  // ------------------------------------------------------------ the RPC thread

  lemma RpcKeepsBuffers(s: Tx)
    requires IrqOk(s) && AllHold(s)
    ensures IrqOk(RpcStep(s)) && AllHold(RpcStep(s))
  {
    RpcFlags(s);
  }

  lemma RpcLock(s: Tx)
    requires LockOk(s)
    ensures LockOk(RpcStep(s))
  {
  }

  /** One step of the scan: what it passes is covered, by a request or by the flag it sets. */
  lemma ScanStep(s: Tx)
    requires RpcOk(s) && RpcReady(s) && Scanning(s.rpc)
    ensures RpcOk(RpcStep(s)) && RunningOk(RpcStep(s))
  {
    var i := s.rpc.i;
    RpcKeepsCovered(s, i);
    RpcKeepsCovered(s, i + 1);
    if i < TXB_NUM {
      RpcKeepsActive(s, i);
    }
  }

  lemma OtherStep(s: Tx)
    requires RpcOk(s) && RunningOk(s) && RpcReady(s) && !Scanning(s.rpc)
    ensures RpcOk(RpcStep(s)) && RunningOk(RpcStep(s))
  {
    RpcKeepsCovered(s, TXB_NUM);
  }

  /** Only a push adds to the queue, and an attempt that ends leaves an active buffer. */
  lemma RpcNotStuck(s: Tx)
    requires Conserves(s) && Progress(s) && RpcReady(s)
    ensures Shape(RpcStep(s)) && NotStuck(RpcStep(s))
  {
    RpcKeepsCovered(s, TXB_NUM);
    if s.rpc.RPush? {
      if !s.ring.prod.PDone? {
        ProducerSimulates(s.ring);
      }
    } else if s.rpc.RUnlock? || (s.rpc.RTest? && !s.xmitStopped) {
      CoveredMeansActive(s);
    }
  }

  lemma RpcProgress(s: Tx)
    requires Conserves(s) && Progress(s) && RpcReady(s)
    ensures Progress(RpcStep(s))
  {
    RpcKeepsBuffers(s);
    RpcLock(s);
    RpcNotStuck(s);
    if Scanning(s.rpc) {
      ScanStep(s);
    } else {
      OtherStep(s);
    }
  }

  // -------------------------------------------------- the interrupt callback

  lemma IrqFlags(s: Tx)
    ensures IrqStep(s).rpc == s.rpc
    ensures IrqStep(s).xmitStopped == (s.xmitStopped || (IrqReady(s) && s.irq.HStopSet?))
  {
  }

  lemma IrqLock(s: Tx)
    requires LockOk(s)
    ensures LockOk(IrqStep(s))
  {
  }

  lemma IrqKeepsCoveredTo(s: Tx, n: nat)
    requires Conserves(s) && IrqOk(s) && IrqReady(s) && !s.irq.HStopSet?
    ensures CoveredTo(s, n) ==> CoveredTo(IrqStep(s), n)
  {
    IrqKeepsCovered(s, 0);
    IrqKeepsCovered(s, 1);
    IrqKeepsCovered(s, 2);
  }

  /** The callback uncovers a buffer only when it sets xmit_stopped, under the lock that keeps
      start_xmit out of its scan. */
  lemma IrqRpcOk(s: Tx)
    requires Conserves(s) && IrqOk(s) && IrqReady(s) && LockOk(s) && RpcOk(s) && RunningOk(s)
    ensures RpcOk(IrqStep(s)) && RunningOk(IrqStep(s))
  {
    IrqFlags(s);
    if !s.irq.HStopSet? {
      IrqKeepsCoveredTo(s, TXB_NUM);
      if Scanning(s.rpc) {
        IrqKeepsCoveredTo(s, s.rpc.i);
        IrqKeepsCoveredTo(s, s.rpc.i + 1);
      }
    }
  }

  /** A buffer stops being active only when the callback finds the queue empty for it. */
  lemma IrqNotStuck(s: Tx)
    requires Conserves(s) && Progress(s) && IrqReady(s)
    ensures Shape(IrqStep(s)) && NotStuck(IrqStep(s))
  {
    IrqFlags(s);
    if s.irq.HPop? && !s.ring.cons.CDone? {
      ConsumerSimulates(s.ring);
    }
    if !FindsEmpty(s) {
      IrqKeepsCovered(s, 0);
      IrqKeepsCovered(s, 1);
      IrqKeepsCovered(s, 2);
    }
  }

  /** What the callback does to the buffers, its claims and the requests. */
  lemma IrqBuffers(s: Tx)
    requires IrqReady(s)
    ensures var r := IrqStep(s);
            && (s.irq.HLoad? ==> r.buffers == s.buffers[s.irq.i := Some(s.irq.frame)]
                                 && Loaded(r.irq) == Loaded(s.irq).Set(s.irq.i, true))
            && (!s.irq.HLoad? ==> r.buffers == s.buffers)
            && (!s.irq.HLoad? && !s.irq.HRts? && !s.irq.HClear? ==> Loaded(r.irq) == Loaded(s.irq))
            && r.txreq == if s.irq.HRts? then s.txreq.Or(s.irq.rts) else s.txreq
  {
  }

  lemma IrqHolds(s: Tx)
    requires IrqOk(s) && IrqReady(s) && AllHold(s)
    ensures AllHold(IrqStep(s))
  {
    IrqBuffers(s);
  }

  lemma IrqProgress(s: Tx)
    requires Conserves(s) && Progress(s) && IrqReady(s)
    ensures Progress(IrqStep(s))
  {
    IrqKeepsShape(s);
    IrqLock(s);
    IrqRpcOk(s);
    IrqNotStuck(s);
    IrqHolds(s);
  }

  // ------------------------------------------------------------------- runs

  lemma TransmittedProgress(s: Tx, j: nat)
    requires Progress(s) && Enabled(s, Transmitted(j))
    ensures Progress(Step(s, Transmitted(j)))
  {
    TransmittedKeepsActive(s, j, 0);
    TransmittedKeepsActive(s, j, 1);
    TransmittedKeepsActive(s, j, 2);
  }

  lemma CallProgress(s: Tx, a: Action)
    requires Progress(s) && Enabled(s, a) && (a.Call? || a.Interrupt?)
    ensures Progress(Step(s, a))
  {
  }

  lemma StepProgress(s: Tx, a: Action)
    requires Conserves(s) && Progress(s)
    ensures Progress(Step(s, a))
  {
    if Enabled(s, a) {
      match a
      case RpcMoves => RpcProgress(s);
      case IrqMoves => IrqProgress(s);
      case Transmitted(j) => TransmittedProgress(s, j);
      case _ => CallProgress(s, a);
    }
  }

  /** Every run keeps transmission going, however the two threads and the controller interleave. */
  lemma {:induction false} ProgressOverRuns(slots: seq<Frame>, acts: seq<Action>)
    requires 0 < |slots|
    ensures var s := Exec(InitTx(slots), acts);
            Progress(s) && Conserves(s) && KeepsGoing(s) && NotStuck(s)
  {
    ConservationOfFrames(slots, acts);
    if acts != [] {
      ProgressOverRuns(slots, acts[..|acts| - 1]);
      StepProgress(Exec(InitTx(slots), acts[..|acts| - 1]), acts[|acts| - 1]);
    }
    ProgressKeepsGoing(Exec(InitTx(slots), acts));
  }

  /** When everything has come to rest, every frame handed to can_send has left the queue: it was
      sent, or overwritten in a transmit buffer. */
  lemma AtRestAllSent(slots: seq<Frame>, acts: seq<Action>)
    requires 0 < |slots|
    requires var s := Exec(InitTx(slots), acts); s.rpc.RIdle? && s.irq.HIdle? && !Busy(s)
    ensures var s := Exec(InitTx(slots), acts);
            Shape(s) && Queue(s.ring) == [] && s.sent + s.lost == multiset(s.returned)
  {
    ProgressOverRuns(slots, acts);
    ConservationOfFrames(slots, acts);
    AtRest(Exec(InitTx(slots), acts));
  }

  lemma AtRest(s: Tx)
    requires Progress(s) && Conserves(s) && Accounted(s)
    requires s.rpc.RIdle? && s.irq.HIdle? && !Busy(s)
    ensures Queue(s.ring) == [] && s.sent + s.lost == multiset(s.returned)
  {
    assert s.ring.popped == s.ring.popped + Queue(s.ring) == s.returned + [] == s.returned;
    RestIsEmpty(s);
  }

  lemma RestIsEmpty(s: Tx)
    requires AllHold(s) && s.irq.HIdle? && !Busy(s)
    ensures InBuffers(s.buffers) == multiset{} && Held(InHandler(s.irq, s.ring.cons)) == multiset{}
  {
  }

  // ------------------------------------------------------------- xmit_stopped

  /** While transmission is running, an attempt that has made its push looks at no buffer. */
  lemma RunningSkipsScan(s: Tx)
    requires RpcReady(s) && s.rpc.RTest? && !s.xmitStopped
    ensures RpcStep(s) == s.(rpc := REnd(s.rpc.frame, s.rpc.ok))
  {
  }

  /** The attempt still holds txb_lock. */
  predicate Locked(rpc: Rpc) {
    Scanning(rpc) || rpc.RUnlock?
  }

  predicate AlwaysLocked(s: Tx, acts: seq<Action>) {
    Locked(Exec(s, acts).rpc) && (acts == [] || AlwaysLocked(s, acts[..|acts| - 1]))
  }

  lemma StaysRunning(s: Tx, a: Action)
    requires LockOk(s) && Locked(s.rpc) && !s.xmitStopped
    ensures !Step(s, a).xmitStopped
  {
  }

  lemma {:induction false} ExecProgress(s: Tx, acts: seq<Action>)
    requires Conserves(s) && Accounted(s) && Progress(s)
    ensures var r := Exec(s, acts); Conserves(r) && Accounted(r) && Progress(r)
  {
    if acts != [] {
      var t, a := Exec(s, acts[..|acts| - 1]), acts[|acts| - 1];
      ExecProgress(s, acts[..|acts| - 1]);
      StepProgress(t, a);
      if Enabled(t, a) {
        ConservesStep(t, a);
      }
    }
  }

  lemma {:induction false} StaysRunningLocked(s: Tx, acts: seq<Action>)
    requires Conserves(s) && Accounted(s) && Progress(s) && !s.xmitStopped && AlwaysLocked(s, acts)
    ensures !Exec(s, acts).xmitStopped
  {
    if acts != [] {
      StaysRunningLocked(s, acts[..|acts| - 1]);
      ExecProgress(s, acts[..|acts| - 1]);
      StaysRunning(Exec(s, acts[..|acts| - 1]), acts[|acts| - 1]);
    }
  }

  /** When start_xmit has set a flag, transmission is running from the next step on, until the attempt
      gives up the lock, whatever the callback and the controller do meanwhile. */
  lemma FlagResumes(slots: seq<Frame>, acts: seq<Action>, more: seq<Action>)
    requires 0 < |slots|
    requires var s := Exec(InitTx(slots), acts); s.rpc.RResume? && RpcReady(s) && AlwaysLocked(RpcStep(s), more)
    ensures !Exec(RpcStep(Exec(InitTx(slots), acts)), more).xmitStopped
  {
    var s := Exec(InitTx(slots), acts);
    ProgressOverRuns(slots, acts);
    ConservationOfFrames(slots, acts);
    RpcProgress(s);
    ConservesStep(s, RpcMoves);
    assert !RpcStep(s).xmitStopped;
    StaysRunningLocked(RpcStep(s), more);
  }
}
