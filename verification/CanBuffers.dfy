/**
 The transmit buffers: TXnIF set implies TXREQ clear, and a buffer the callback has claimed is
 free, so that no frame is overwritten. That is so over a run if and only if start_xmit never
 sets the flag of a buffer that is being sent or that the callback has claimed.
 */
module CanBuffers {
  import opened CanInf
  import opened Ring
  import opened RingSteps
  import opened CanTransmit
  import opened CanProgress

  /** A flag or a claim means that buffer i is free, and the buffer holds a frame exactly while
      the frame is loaded or being sent. */
  predicate BufferOk(s: Tx, i: nat)
    requires |s.buffers| == TXB_NUM && i < TXB_NUM
  {
    && !(s.txif.Get(i) && s.txreq.Get(i))
    && (Claimed(s, i) ==> !s.txif.Get(i) && !s.txreq.Get(i))
    && (s.buffers[i].Some? <==> s.txreq.Get(i) || Loaded(s.irq).Get(i))
  }

  predicate BuffersOk(s: Tx) {
    |s.buffers| == TXB_NUM && BufferOk(s, 0) && BufferOk(s, 1) && BufferOk(s, 2)
  }

  /** start_xmit is about to set the flag of a buffer that is not free: it read TXREQ before the
      callback took the buffer. */
  predicate Clash(s: Tx, a: Action) {
    a == RpcMoves && RpcReady(s) && s.rpc.RFlag? && (s.txreq.Get(s.rpc.i) || Claimed(s, s.rpc.i))
  }

  predicate NoClash(s: Tx, acts: seq<Action>) {
    acts == [] ||
    (NoClash(s, acts[..|acts| - 1]) && !Clash(Exec(s, acts[..|acts| - 1]), acts[|acts| - 1]))
  }

  predicate AlwaysOk(s: Tx, acts: seq<Action>) {
    BuffersOk(Exec(s, acts)) && (acts == [] || AlwaysOk(s, acts[..|acts| - 1]))
  }

  // -------------------------------------------------------------- one step

  /** A clash breaks the buffer at once. */
  lemma ClashBreaks(s: Tx, a: Action)
    requires Clash(s, a)
    ensures !BuffersOk(Step(s, a))
  {
    RpcFlags(s);
    assert RpcStep(s).txif.Get(s.rpc.i);
    assert s.rpc.i == 0 || s.rpc.i == 1 || s.rpc.i == 2;
  }

  lemma RpcKeepsBuffer(s: Tx, i: nat)
    requires |s.buffers| == TXB_NUM && i < TXB_NUM && BufferOk(s, i) && !Clash(s, RpcMoves)
    ensures |RpcStep(s).buffers| == TXB_NUM && BufferOk(RpcStep(s), i)
  {
    RpcFlags(s);
  }

  lemma TransmittedKeepsBuffer(s: Tx, j: nat, i: nat)
    requires |s.buffers| == TXB_NUM && i < TXB_NUM && BufferOk(s, i) && Enabled(s, Transmitted(j))
    ensures |Step(s, Transmitted(j)).buffers| == TXB_NUM && BufferOk(Step(s, Transmitted(j)), i)
  {
  }

  /** The callback treats the buffers from the highest down, so what it may still load it has not
      loaded yet. */
  predicate InTurn(irq: Irq) {
    match irq
    case HScan(_, rts, n) => !rts.AnyBelow(n)
    case HPop(_, rts, k) => !rts.AnyBelow(k + 1)
    case HLoad(_, rts, k, _) => !rts.AnyBelow(k + 1)
    case HStopLock(_, rts, k) => !rts.AnyBelow(k + 1)
    case HStopSet(_, rts, k) => !rts.AnyBelow(k + 1)
    case HStopUnlock(_, rts, k) => !rts.AnyBelow(k + 1)
    case _ => true
  }

  lemma IrqInTurn(s: Tx)
    requires InTurn(s.irq)
    ensures InTurn(IrqStep(s).irq)
  {
  }

  lemma IrqClears(s: Tx)
    requires IrqReady(s)
    ensures IrqStep(s).txif == (if s.irq.HClear? then s.txif.Minus(s.irq.tx) else s.txif)
    ensures s.irq.HRts? || s.irq.HClear? ==> Loaded(IrqStep(s).irq) == NONE
  {
  }

  /** The callback claims what it clears the flag of, and otherwise no buffer anew. */
  lemma IrqClaims(s: Tx, i: nat)
    requires IrqReady(s) && IrqOk(s) && i < TXB_NUM && (s.irq.HPop? <==> !s.ring.cons.CIdle?)
    requires Claimed(IrqStep(s), i)
    ensures if s.irq.HClear? then s.irq.tx.Get(i) else Claimed(s, i)
  {
  }

  lemma IrqKeepsBuffer(s: Tx, i: nat)
    requires IrqReady(s) && IrqOk(s) && InTurn(s.irq) && (s.irq.HPop? <==> !s.ring.cons.CIdle?)
    requires |s.buffers| == TXB_NUM && i < TXB_NUM && BufferOk(s, i)
    ensures |IrqStep(s).buffers| == TXB_NUM && BufferOk(IrqStep(s), i)
  {
    IrqBuffers(s);
    IrqClears(s);
    if Claimed(IrqStep(s), i) {
      IrqClaims(s, i);
    }
  }

  /** A buffer about to be loaded is empty, so nothing is overwritten. */
  lemma LoadsEmpty(s: Tx)
    requires IrqOk(s) && InTurn(s.irq) && BuffersOk(s)
    ensures IrqStep(s).lost == s.lost
  {
    if s.irq.HLoad? {
      assert BufferOk(s, s.irq.i);
      assert Claimed(s, s.irq.i);
    }
  }

  ghost predicate Sound(s: Tx) {
    BuffersOk(s) && s.lost == multiset{}
  }

  lemma StepSound(s: Tx, a: Action)
    requires Conserves(s) && Progress(s) && InTurn(s.irq) && Sound(s) && !Clash(s, a)
    ensures Sound(Step(s, a))
  {
    if Enabled(s, a) {
      match a
      case RpcMoves =>
        RpcKeepsBuffer(s, 0);
        RpcKeepsBuffer(s, 1);
        RpcKeepsBuffer(s, 2);
        RpcFrame(s);
      case IrqMoves =>
        IrqKeepsBuffer(s, 0);
        IrqKeepsBuffer(s, 1);
        IrqKeepsBuffer(s, 2);
        LoadsEmpty(s);
      case Transmitted(j) =>
        TransmittedKeepsBuffer(s, j, 0);
        TransmittedKeepsBuffer(s, j, 1);
        TransmittedKeepsBuffer(s, j, 2);
      case _ =>
    }
  }

  // ------------------------------------------------------------------- runs

  lemma {:induction false} AlwaysInTurn(slots: seq<Frame>, acts: seq<Action>)
    ensures InTurn(Exec(InitTx(slots), acts).irq)
  {
    if acts != [] {
      var s, a := Exec(InitTx(slots), acts[..|acts| - 1]), acts[|acts| - 1];
      AlwaysInTurn(slots, acts[..|acts| - 1]);
      if a == IrqMoves {
        IrqInTurn(s);
      } else if a == RpcMoves {
        RpcFrame(s);
      }
    }
  }

  /** Without a clash all buffers are in order throughout, and no frame is overwritten. */
  lemma {:induction false} NoClashSound(slots: seq<Frame>, acts: seq<Action>)
    requires 0 < |slots| && NoClash(InitTx(slots), acts)
    ensures AlwaysOk(InitTx(slots), acts) && Exec(InitTx(slots), acts).lost == multiset{}
  {
    if acts != [] {
      var p := acts[..|acts| - 1];
      NoClashSound(slots, p);
      ProgressOverRuns(slots, p);
      AlwaysInTurn(slots, p);
      StepSound(Exec(InitTx(slots), p), acts[|acts| - 1]);
    }
  }

  /** Over a run the buffers are in order in every state exactly when there is no clash. */
  lemma {:induction false} BuffersOkIff(slots: seq<Frame>, acts: seq<Action>)
    requires 0 < |slots|
    ensures AlwaysOk(InitTx(slots), acts) <==> NoClash(InitTx(slots), acts)
  {
    if NoClash(InitTx(slots), acts) {
      NoClashSound(slots, acts);
    } else {
      var p := acts[..|acts| - 1];
      BuffersOkIff(slots, p);
      if NoClash(InitTx(slots), p) {
        ClashBreaks(Exec(InitTx(slots), p), acts[|acts| - 1]);
      }
    }
  }

  /** At rest after a run without a clash, what has been sent is what the returned calls gave. */
  lemma AtRestNoneLost(slots: seq<Frame>, acts: seq<Action>)
    requires 0 < |slots| && NoClash(InitTx(slots), acts)
    requires var s := Exec(InitTx(slots), acts); s.rpc.RIdle? && s.irq.HIdle? && !Busy(s)
    ensures Exec(InitTx(slots), acts).sent == multiset(Exec(InitTx(slots), acts).returned)
  {
    AtRestAllSent(slots, acts);
    NoClashSound(slots, acts);
  }

  // ------------------------------------------------------------ exclusive runs

  /** No attempt of can_send is under way, or the callback is not running. */
  predicate Exclusive(s: Tx) {
    s.irq.HIdle? || s.rpc.RIdle? || s.rpc.RTry?
  }

  predicate AlwaysExclusive(s: Tx, acts: seq<Action>) {
    Exclusive(Exec(s, acts)) && (acts == [] || AlwaysExclusive(s, acts[..|acts| - 1]))
  }

  /** The buffer whose flag start_xmit is about to set is free. */
  predicate FlagFree(s: Tx) {
    s.rpc.RFlag? ==> !s.txreq.Get(s.rpc.i)
  }

  /** If an attempt (a push and the start_xmit after it) and an invocation of the callback never
      overlap, there is no clash. */
  lemma {:induction false} ExclusiveNoClash(slots: seq<Frame>, acts: seq<Action>)
    requires AlwaysExclusive(InitTx(slots), acts)
    ensures NoClash(InitTx(slots), acts) && FlagFree(Exec(InitTx(slots), acts))
  {
    if acts != [] {
      var s, a := Exec(InitTx(slots), acts[..|acts| - 1]), acts[|acts| - 1];
      ExclusiveNoClash(slots, acts[..|acts| - 1]);
      ExclusiveStep(s, a);
    }
  }

  lemma ExclusiveStep(s: Tx, a: Action)
    requires Exclusive(s) && Exclusive(Step(s, a)) && FlagFree(s)
    ensures !Clash(s, a) && FlagFree(Step(s, a))
  {
    if a == RpcMoves {
      RpcFlags(s);
    } else if a == IrqMoves {
      IrqFlags(s);
    }
  }
}
