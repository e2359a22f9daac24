/**
 Queued transmission: the RPC thread in can_send, the interrupt callback in
 transmit_message, and the controller, as a system of steps. The two threads share the
 transmit queue, xmit_stopped, and the TXREQ and TXnIF bits of the controller.
 */
module CanTransmit {
  import opened CanInf
  import opened Ring
  import opened RingSteps

  const TXB_NUM: nat := 3

  /** Three bits, one per transmit buffer. */
  datatype Bits = Bits(b0: bool, b1: bool, b2: bool) {
    predicate Get(i: nat) {
      if i == 0 then b0 else if i == 1 then b1 else (i == 2 && b2)
    }

    function Set(i: nat, v: bool): (r: Bits)
      ensures forall j: nat :: r.Get(j) <==> if j == i && j < TXB_NUM then v else Get(j)
    {
      Bits(if i == 0 then v else b0, if i == 1 then v else b1, if i == 2 then v else b2)
    }

    predicate Any() {
      b0 || b1 || b2
    }

    predicate AnyBelow(i: nat) {
      (b0 && 0 < i) || (b1 && 1 < i) || (b2 && 2 < i)
    }

    function Or(o: Bits): Bits {
      Bits(b0 || o.b0, b1 || o.b1, b2 || o.b2)
    }

    function Minus(o: Bits): Bits {
      Bits(b0 && !o.b0, b1 && !o.b1, b2 && !o.b2)
    }
  }

  const NONE := Bits(false, false, false)

  /** Where the RPC thread stands in can_send(frame); `ok` is the result of the last push. */
  datatype Rpc =
    | RIdle
    | RTry(frame: Frame)                  // top of the retry loop
    | RPush(frame: Frame)                 // inside tx_queue_push
    | RTest(frame: Frame, ok: bool)       // start_xmit: read xmit_stopped
    | RLock(frame: Frame, ok: bool)
    | RScan(frame: Frame, ok: bool, i: nat)    // read TXBCTRL(i)
    | RFlag(frame: Frame, ok: bool, i: nat)    // found free: set TXiIF
    | RResume(frame: Frame, ok: bool, i: nat)  // xmit_stopped = 0
    | RUnlock(frame: Frame, ok: bool)
    | REnd(frame: Frame, ok: bool)        // bottom of the retry loop

  /** Where the interrupt callback stands. The loop treats buffers i = 2, 1, 0. */
  datatype Irq =
    | HIdle
    | HRead                               // about to read CANINTF
    | HClear(tx: Bits)                    // about to clear the flags it read
    | HScan(tx: Bits, rts: Bits, n: nat)  // buffers below n are still to be treated
    | HPop(tx: Bits, rts: Bits, i: nat)   // inside tx_queue_pop
    | HLoad(tx: Bits, rts: Bits, i: nat, frame: Frame)
    | HStopLock(tx: Bits, rts: Bits, i: nat)
    | HStopSet(tx: Bits, rts: Bits, i: nat)
    | HStopUnlock(tx: Bits, rts: Bits, i: nat)
    | HRts(rts: Bits)                     // about to request to send

  datatype TxbOwner = TxbFree | TxbRpc | TxbIrq

  datatype Tx = Tx(
    ring: RingState<Frame>,
    xmitStopped: bool,
    txbLock: TxbOwner,
    txreq: Bits,
    txif: Bits,
    buffers: seq<Option<Frame>>,   // a frame stays in its buffer from load to completion
    rpc: Rpc,
    irq: Irq,
    calls: seq<Frame>,             // frames of all can_send calls
    returned: seq<Frame>,          // frames of the can_send calls that have returned
    sent: multiset<Frame>,         // frames the controller has transmitted
    lost: multiset<Frame>)         // frames overwritten in a transmit buffer before being sent

  datatype Action =
    | Call(frame: Frame)     // a client calls can_send
    | RpcMoves
    | Interrupt              // the callback is invoked
    | IrqMoves
    | Transmitted(i: nat)    // the controller completes buffer i

  function InitTx(slots: seq<Frame>): Tx {
    Tx(InitRing(slots), true, TxbFree, NONE, NONE, [None, None, None], RIdle, HIdle,
       [], [], multiset{}, multiset{})
  }

  predicate Shape(s: Tx) {
    && Indices(|s.ring.slots|, s.ring.head, s.ring.tail)
    && |s.buffers| == TXB_NUM
  }

  // ------------------------------------------------------------ the RPC thread

  predicate RpcReady(s: Tx) {
    Shape(s) &&
    match s.rpc
    case RIdle => false
    case RTry(_) => s.ring.prod.PIdle?
    case RPush(_) => s.ring.prod.PDone? || ProducerReady(s.ring)
    case RLock(_, _) => s.txbLock == TxbFree
    case RFlag(_, _, i) => i < TXB_NUM
    case RResume(_, _, i) => i < TXB_NUM
    case _ => true
  }

  /** One step of the RPC thread; a thread that has to wait leaves the state as it is. */
  function RpcStep(s: Tx): Tx {
    if !RpcReady(s) then s else
    match s.rpc
    case RTry(f) => s.(rpc := RPush(f), ring := Act(s.ring, BeginPush(f)))
    case RPush(f) =>
      if s.ring.prod.PDone?
      then s.(rpc := RTest(f, s.ring.prod.ok), ring := Act(s.ring, EndPush))
      else s.(ring := StepProducer(s.ring))
    case RTest(f, ok) => s.(rpc := if s.xmitStopped then RLock(f, ok) else REnd(f, ok))
    case RLock(f, ok) => s.(rpc := RScan(f, ok, 0), txbLock := TxbRpc)
    case RScan(f, ok, i) =>
      if i >= TXB_NUM then s.(rpc := RUnlock(f, ok))
      else if !s.txreq.Get(i) then s.(rpc := RFlag(f, ok, i))
      else s.(rpc := RScan(f, ok, i + 1))
    case RFlag(f, ok, i) => s.(rpc := RResume(f, ok, i), txif := s.txif.Set(i, true))
    case RResume(f, ok, i) => s.(rpc := RScan(f, ok, i + 1), xmitStopped := false)
    case RUnlock(f, ok) => s.(rpc := REnd(f, ok), txbLock := TxbFree)
    case REnd(f, ok) =>
      if ok then s.(rpc := RIdle, returned := s.returned + [f]) else s.(rpc := RTry(f))
    case RIdle => s
  }

  // -------------------------------------------------- the interrupt callback

  predicate IrqReady(s: Tx) {
    Shape(s) &&
    match s.irq
    case HIdle => false
    case HScan(tx, rts, n) => n <= TXB_NUM && s.ring.cons.CIdle?
    case HPop(_, _, i) => i < TXB_NUM && (s.ring.cons.CDone? || ConsumerReady(s.ring))
    case HLoad(_, _, i, _) => i < TXB_NUM
    case HStopLock(_, _, _) => s.txbLock == TxbFree
    case _ => true
  }

  function Held(b: Option<Frame>): multiset<Frame> {
    if b.Some? then multiset{b.value} else multiset{}
  }

  function IrqStep(s: Tx): Tx {
    if !IrqReady(s) then s else
    match s.irq
    case HRead => s.(irq := if s.txif.Any() then HClear(s.txif) else HIdle)
    case HClear(tx) => s.(irq := HScan(tx, NONE, TXB_NUM), txif := s.txif.Minus(tx))
    case HScan(tx, rts, n) =>
      if n == 0 then s.(irq := HRts(rts))
      else if tx.Get(n - 1) then s.(irq := HPop(tx, rts, n - 1), ring := Act(s.ring, BeginPop))
      else s.(irq := HScan(tx, rts, n - 1))
    case HPop(tx, rts, i) =>
      if s.ring.cons.CDone?
      then s.(irq := if s.ring.cons.got.Some? then HLoad(tx, rts, i, s.ring.cons.got.value)
                     else HStopLock(tx, rts, i),
              ring := Act(s.ring, EndPop))
      else s.(ring := StepConsumer(s.ring))
    case HLoad(tx, rts, i, f) =>
      s.(irq := HScan(tx, rts.Set(i, true), i),
         buffers := s.buffers[i := Some(f)],
         lost := s.lost + Held(s.buffers[i]))
    case HStopLock(tx, rts, i) => s.(irq := HStopSet(tx, rts, i), txbLock := TxbIrq)
    case HStopSet(tx, rts, i) => s.(irq := HStopUnlock(tx, rts, i), xmitStopped := true)
    case HStopUnlock(tx, rts, i) => s.(irq := HScan(tx, rts, i), txbLock := TxbFree)
    case HRts(rts) => s.(irq := HIdle, txreq := s.txreq.Or(rts))
    case HIdle => s
  }

  // -------------------------------------------------------------- the system

  predicate Enabled(s: Tx, a: Action) {
    match a
    case Call(_) => s.rpc == RIdle
    case RpcMoves => RpcReady(s)
    case Interrupt => s.irq == HIdle
    case IrqMoves => IrqReady(s)
    case Transmitted(i) => Shape(s) && i < TXB_NUM && s.txreq.Get(i)
  }

  function Step(s: Tx, a: Action): Tx {
    if !Enabled(s, a) then s else
    match a
    case Call(f) => s.(rpc := RTry(f), calls := s.calls + [f])
    case RpcMoves => RpcStep(s)
    case Interrupt => s.(irq := HRead)
    case IrqMoves => IrqStep(s)
    case Transmitted(i) =>
      s.(txreq := s.txreq.Set(i, false), txif := s.txif.Set(i, true),
         buffers := s.buffers[i := None],
         sent := s.sent + Held(s.buffers[i]))
  }

  // ------------------------------------- conservation, under every interleaving

  /** The frame of the current can_send call, once it is in the queue. */
  function InHand(s: Tx): seq<Frame> {
    match s.rpc
    case RPush(f) => if s.ring.prod.PUnlock? || s.ring.prod == PDone(f, true) then [f] else []
    case RTest(f, ok) => if ok then [f] else []
    case RLock(f, ok) => if ok then [f] else []
    case RScan(f, ok, _) => if ok then [f] else []
    case RFlag(f, ok, _) => if ok then [f] else []
    case RResume(f, ok, _) => if ok then [f] else []
    case RUnlock(f, ok) => if ok then [f] else []
    case REnd(f, ok) => if ok then [f] else []
    case _ => []
  }

  /** The frame of the call that has not returned yet. */
  function Current(rpc: Rpc): seq<Frame> {
    if rpc.RIdle? then [] else [rpc.frame]
  }

  ghost predicate Conserves(s: Tx) {
    && RingInv(s.ring)
    && |s.buffers| == TXB_NUM
    && (s.rpc.RPush? <==> !s.ring.prod.PIdle?)
    && (s.rpc.RPush? ==> s.ring.prod.f == s.rpc.frame)
    && (s.irq.HPop? <==> !s.ring.cons.CIdle?)
    && s.ring.pushed == s.returned + InHand(s)
    && s.calls == s.returned + Current(s.rpc)
  }

  lemma SameRing(s: Tx, r: Tx)
    requires Conserves(s) && r.ring == s.ring && |r.buffers| == TXB_NUM
    requires r.rpc.RPush? == s.rpc.RPush? && (r.rpc.RPush? ==> r.rpc == s.rpc)
    requires r.irq.HPop? == s.irq.HPop?
    requires r.returned + InHand(r) == s.returned + InHand(s)
    requires r.calls == r.returned + Current(r.rpc)
    ensures Conserves(r)
  {
  }

  lemma PushConserves(s: Tx)
    requires Conserves(s) && RpcReady(s) && s.rpc.RPush?
    ensures Conserves(RpcStep(s))
  {
    var r := RpcStep(s);
    if s.ring.prod.PDone? {
      assert InHand(r) == InHand(s);
    } else {
      ProducerSimulates(s.ring);
      if s.ring.prod.PAdvance? {
        assert r.ring.pushed == s.returned + [s.rpc.frame];
      } else {
        assert r.ring.pushed == s.ring.pushed;
        assert InHand(r) == InHand(s);
      }
    }
  }

  lemma RpcConserves(s: Tx)
    requires Conserves(s) && RpcReady(s)
    ensures Conserves(RpcStep(s))
  {
    if s.rpc.RPush? {
      PushConserves(s);
    } else if s.rpc.RTry? {
      assert InHand(RpcStep(s)) == InHand(s);
    } else {
      assert RpcStep(s).returned + InHand(RpcStep(s)) == s.returned + InHand(s);
      SameRing(s, RpcStep(s));
    }
  }

  lemma PopConserves(s: Tx)
    requires Conserves(s) && IrqReady(s) && s.irq.HPop?
    ensures Conserves(IrqStep(s))
  {
    var r := IrqStep(s);
    assert InHand(r) == InHand(s);
    if !s.ring.cons.CDone? {
      ConsumerSimulates(s.ring);
      assert r.ring.pushed == s.ring.pushed && r.ring.prod == s.ring.prod;
    }
  }

  lemma IrqConserves(s: Tx)
    requires Conserves(s) && IrqReady(s)
    ensures Conserves(IrqStep(s))
  {
    if s.irq.HPop? {
      PopConserves(s);
    } else if IrqStep(s).irq.HPop? {
      assert s.irq.HScan? && InHand(IrqStep(s)) == InHand(s);
    } else {
      SameRing(s, IrqStep(s));
    }
  }

  /** The frame the callback has taken from the queue and not yet loaded. */
  function InHandler(irq: Irq, cons: Consumer<Frame>): Option<Frame> {
    match irq
    case HLoad(_, _, _, f) => Some(f)
    case HPop(_, _, _) =>
      (match cons
       case CUnlock(f) => Some(f)
       case CDone(got) => got
       case _ => None)
    case _ => None
  }

  function InBuffers(b: seq<Option<Frame>>): multiset<Frame>
    requires |b| == TXB_NUM
  {
    Held(b[0]) + Held(b[1]) + Held(b[2])
  }

  /** Every frame taken from the queue is accounted for. */
  ghost predicate Accounted(s: Tx) {
    && |s.buffers| == TXB_NUM
    && multiset(s.ring.popped) == s.sent + s.lost + InBuffers(s.buffers) + Held(InHandler(s.irq, s.ring.cons))
  }

  lemma Exchange<T>(a: multiset<T>, b: multiset<T>, c: multiset<T>, x: multiset<T>)
    ensures x + b + c + a == a + b + c + x
    ensures b + x + c + a == b + a + c + x
    ensures b + c + x + a == b + c + a + x
  {
  }

  lemma BufferChange(b: seq<Option<Frame>>, i: nat, x: Option<Frame>)
    requires |b| == TXB_NUM && i < TXB_NUM
    ensures InBuffers(b[i := x]) + Held(b[i]) == InBuffers(b) + Held(x)
  {
    var y := Held(x);
    if i == 0 {
      Exchange(Held(b[0]), Held(b[1]), Held(b[2]), y);
    } else if i == 1 {
      Exchange(Held(b[1]), Held(b[0]), Held(b[2]), y);
    } else {
      Exchange(Held(b[2]), Held(b[0]), Held(b[1]), y);
    }
  }

  lemma MoveLoaded<T>(sent: multiset<T>, lost: multiset<T>, bs: multiset<T>, f: multiset<T>, bs': multiset<T>, over: multiset<T>)
    requires bs' + over == bs + f
    ensures sent + lost + bs + f == sent + (lost + over) + bs' + multiset{}
    ensures sent + lost + bs + f == (sent + over) + lost + bs' + multiset{}
  {
    assert sent + lost + bs + f == sent + lost + (bs + f);
    assert sent + lost + (bs' + over) == sent + (lost + over) + bs';
  }

  lemma LoadFrame(s: Tx)
    requires IrqReady(s) && s.irq.HLoad?
    ensures var i, x, r := s.irq.i, Some(s.irq.frame), IrqStep(s);
            && r.ring == s.ring && r.sent == s.sent && r.buffers == s.buffers[i := x]
            && r.lost == s.lost + Held(s.buffers[i])
            && InHandler(s.irq, s.ring.cons) == x && InHandler(r.irq, r.ring.cons) == None
  {
  }

  lemma LoadAccounts(s: Tx)
    requires IrqReady(s) && Accounted(s) && s.irq.HLoad?
    ensures Accounted(IrqStep(s))
  {
    var i, x := s.irq.i, Some(s.irq.frame);
    LoadFrame(s);
    BufferChange(s.buffers, i, x);
    MoveLoaded(s.sent, s.lost, InBuffers(s.buffers), Held(x), InBuffers(s.buffers[i := x]), Held(s.buffers[i]));
  }

  lemma SameHandler(s: Tx, r: Tx)
    requires Accounted(s) && r.ring.popped == s.ring.popped
    requires r.sent == s.sent && r.lost == s.lost && r.buffers == s.buffers
    requires InHandler(r.irq, r.ring.cons) == InHandler(s.irq, s.ring.cons)
    ensures Accounted(r)
  {
  }

  lemma TakeOne<T>(p: seq<T>, x: multiset<T>, f: T)
    requires multiset(p) == x + multiset{}
    ensures multiset(p + [f]) == x + multiset{f}
  {
  }

  /** The consumer hands the frame it takes to the handler. */
  lemma PopFrame(s: Tx)
    requires IrqReady(s) && s.irq.HPop?
    ensures var r := IrqStep(s);
            && r.sent == s.sent && r.lost == s.lost && r.buffers == s.buffers
            && if s.ring.cons.CAdvance?
               then r.ring.popped == s.ring.popped + [s.ring.cons.f]
                    && InHandler(s.irq, s.ring.cons) == None
                    && InHandler(r.irq, r.ring.cons) == Some(s.ring.cons.f)
               else r.ring.popped == s.ring.popped
                    && InHandler(s.irq, s.ring.cons) == InHandler(r.irq, r.ring.cons)
  {
  }

  lemma PopAccounts(s: Tx)
    requires IrqReady(s) && Accounted(s) && s.irq.HPop?
    ensures Accounted(IrqStep(s))
  {
    PopFrame(s);
    if s.ring.cons.CAdvance? {
      TakeOne(s.ring.popped, s.sent + s.lost + InBuffers(s.buffers), s.ring.cons.f);
    } else {
      SameHandler(s, IrqStep(s));
    }
  }

  lemma IrqAccounts(s: Tx)
    requires IrqReady(s) && Accounted(s)
    ensures Accounted(IrqStep(s))
  {
    if s.irq.HLoad? {
      LoadAccounts(s);
    } else if s.irq.HPop? {
      PopAccounts(s);
    } else {
      SameHandler(s, IrqStep(s));
    }
  }

  lemma TransmittedAccounts(s: Tx, i: nat)
    requires Accounted(s) && Enabled(s, Transmitted(i))
    ensures Accounted(Step(s, Transmitted(i)))
  {
    var b := s.buffers;
    var h := Held(InHandler(s.irq, s.ring.cons));
    BufferChange(b, i, None);
    MoveLoaded(s.sent, s.lost, InBuffers(b), multiset{}, InBuffers(b[i := None]), Held(b[i]));
    assert multiset(s.ring.popped) == (s.sent + s.lost + InBuffers(b) + multiset{}) + h;
  }

  lemma RpcFrame(s: Tx)
    ensures var r := RpcStep(s);
            && r.ring.popped == s.ring.popped && r.ring.cons == s.ring.cons && r.irq == s.irq
            && r.buffers == s.buffers && r.sent == s.sent && r.lost == s.lost
  {
  }

  lemma RpcAccounts(s: Tx)
    requires Accounted(s)
    ensures Accounted(RpcStep(s))
  {
    RpcFrame(s);
    SameHandler(s, RpcStep(s));
  }

  lemma ConservesStep(s: Tx, a: Action)
    requires Conserves(s) && Accounted(s) && Enabled(s, a)
    ensures Conserves(Step(s, a)) && Accounted(Step(s, a))
  {
    match a
    case RpcMoves => RpcConserves(s); RpcAccounts(s);
    case IrqMoves => IrqConserves(s); IrqAccounts(s);
    case Transmitted(i) => TransmittedAccounts(s, i);
    case _ =>
  }

  // ------------------------------------------------------------------- runs

  function Exec(s: Tx, acts: seq<Action>): Tx {
    if acts == [] then s else Step(Exec(s, acts[..|acts| - 1]), acts[|acts| - 1])
  }

  /** Under every interleaving of the threads and the controller: the frames taken from the
      queue followed by those still queued are the frames accepted, in order; every can_send
      that has returned has queued its frame exactly once; no call but the current one is
      missing from those that returned; and every frame taken is in a buffer, in the handler,
      sent, or overwritten. */
  lemma {:induction false} ConservationOfFrames(slots: seq<Frame>, acts: seq<Action>)
    requires 0 < |slots|
    ensures var s := Exec(InitTx(slots), acts);
            && Conserves(s) && Accounted(s)
            && s.ring.popped + Queue(s.ring) == s.returned + InHand(s)
            && |InHand(s)| <= 1 && (s.rpc.RIdle? ==> InHand(s) == [])
            && s.calls == s.returned + Current(s.rpc)
  {
    if acts == [] {
      InitRingInv(slots);
    } else {
      ConservationOfFrames(slots, acts[..|acts| - 1]);
      var s := Exec(InitTx(slots), acts[..|acts| - 1]);
      if Enabled(s, acts[|acts| - 1]) {
        ConservesStep(s, acts[|acts| - 1]);
      }
    }
  }
}
