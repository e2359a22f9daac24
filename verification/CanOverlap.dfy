/**
 A clash of module CanBuffers, and what it leads to: a run in which start_xmit finds buffer 0
 free, the callback then loads it and requests to send it, start_xmit sets its TX0IF although
 its TXREQ is set, and the next callback overwrites the frame in it.
 */
module CanOverlap {
  import opened CanInf
  import opened Ring
  import opened RingSteps
  import opened CanTransmit
  import opened CanBuffers

  function Repeat(a: Action, n: nat): seq<Action> {
    if n == 0 then [] else Repeat(a, n - 1) + [a]
  }

  /** Action a, n times, takes s to s'. */
  function Times(s: Tx, a: Action, n: nat): Tx
    decreases n
  {
    if n == 0 then s else Step(Times(s, a, n - 1), a)
  }

  lemma ExecOne(s: Tx, acts: seq<Action>, a: Action)
    ensures Exec(s, acts + [a]) == Step(Exec(s, acts), a)
  {
    assert (acts + [a])[..|acts|] == acts;
  }

  lemma RepeatLast(acts: seq<Action>, a: Action, n: nat)
    requires 0 < n
    ensures acts + Repeat(a, n) == acts + Repeat(a, n - 1) + [a]
  {
  }

  lemma {:induction false} ExecTimes(s: Tx, acts: seq<Action>, a: Action, n: nat)
    ensures Exec(s, acts + Repeat(a, n)) == Times(Exec(s, acts), a, n)
  {
    if n == 0 {
      assert acts + Repeat(a, 0) == acts;
    } else {
      RepeatLast(acts, a, n);
      ExecOne(s, acts + Repeat(a, n - 1), a);
      ExecTimes(s, acts, a, n - 1);
    }
  }

  const ALL := Bits(true, true, true)
  const TOP := Bits(false, false, true)
  const ENDS := Bits(true, false, true)

  function Slots(f: Frame): seq<Frame> {
    [f, f, f]
  }

  function Rested(head: nat, tail: nat, f: Frame, pushed: seq<Frame>, popped: seq<Frame>): RingState<Frame> {
    RingState(Slots(f), head, tail, Free, PIdle, CIdle, pushed, popped)
  }

  // ----------------------------------------------------- a push, and a pop

  lemma PushMoves(s: Tx)
    requires Shape(s) && s.rpc.RPush? && ProducerReady(s.ring)
    ensures Step(s, RpcMoves) == s.(ring := StepProducer(s.ring))
  {
  }

  lemma PopMoves(s: Tx)
    requires Shape(s) && s.irq.HPop? && s.irq.i < TXB_NUM && ConsumerReady(s.ring)
    ensures Step(s, IrqMoves) == s.(ring := StepConsumer(s.ring))
  {
  }

  function AfterPush(r: RingState<Frame>, f: Frame): RingState<Frame>
    requires Indices(|r.slots|, r.head, r.tail)
  {
    r.(slots := r.slots[r.tail := f], tail := Next(r.tail, |r.slots|), pushed := r.pushed + [f])
  }

  /** tx_queue_push(f) by a thread that runs alone on a queue with room. */
  lemma PushRuns(s: Tx, f: Frame)
    requires Shape(s) && s.rpc == RPush(f) && s.ring.prod == PCheck(f) && s.ring.lock == Free
    requires Next(s.ring.tail, |s.ring.slots|) != s.ring.head
    ensures Times(s, RpcMoves, 5) == s.(ring := AfterPush(s.ring, f).(prod := PDone(f, true)))
  {
    PushMoves(s);
    var s1 := s.(ring := StepProducer(s.ring));
    PushMoves(s1);
    var s2 := s1.(ring := StepProducer(s1.ring));
    PushMoves(s2);
    var s3 := s2.(ring := StepProducer(s2.ring));
    PushMoves(s3);
    var s4 := s3.(ring := StepProducer(s3.ring));
    PushMoves(s4);
    var s5 := s4.(ring := StepProducer(s4.ring));
    assert s1 == Times(s, RpcMoves, 1);
    assert s2 == Times(s, RpcMoves, 2);
    assert s3 == Times(s, RpcMoves, 3);
    assert s4 == Times(s, RpcMoves, 4);
    assert s5 == Times(s, RpcMoves, 5);
  }

  function AfterPop(r: RingState<Frame>): RingState<Frame>
    requires Indices(|r.slots|, r.head, r.tail)
  {
    r.(head := Next(r.head, |r.slots|), popped := r.popped + [r.slots[r.head]])
  }

  /** tx_queue_pop by a callback that runs alone on a queue with a frame. */
  lemma PopRuns(s: Tx, f: Frame)
    requires Shape(s) && s.irq.HPop? && s.irq.i < TXB_NUM && s.ring.cons == CCheck && s.ring.lock == Free
    requires s.ring.tail != s.ring.head && s.ring.slots[s.ring.head] == f
    ensures Times(s, IrqMoves, 5) == s.(ring := AfterPop(s.ring).(cons := CDone(Some(f))))
  {
    PopMoves(s);
    var s1 := s.(ring := StepConsumer(s.ring));
    PopMoves(s1);
    var s2 := s1.(ring := StepConsumer(s1.ring));
    PopMoves(s2);
    var s3 := s2.(ring := StepConsumer(s2.ring));
    PopMoves(s3);
    var s4 := s3.(ring := StepConsumer(s3.ring));
    PopMoves(s4);
    var s5 := s4.(ring := StepConsumer(s4.ring));
    assert s1 == Times(s, IrqMoves, 1);
    assert s2 == Times(s, IrqMoves, 2);
    assert s3 == Times(s, IrqMoves, 3);
    assert s4 == Times(s, IrqMoves, 4);
    assert s5 == Times(s, IrqMoves, 5);
  }

  // ------------------------------------------------------------ the overlap

  /** State of the run at its landmarks, all frames being the same frame f. */
  function Mark(f: Frame, ring: RingState<Frame>, stopped: bool, lock: TxbOwner, txreq: Bits, txif: Bits,
                buffers: seq<Option<Frame>>, rpc: Rpc, irq: Irq, returned: seq<Frame>): Tx
  {
    Tx(ring, stopped, lock, txreq, txif, buffers, rpc, irq, returned + Current(rpc), returned, multiset{}, multiset{})
  }

  const EMPTY: seq<Option<Frame>> := [None, None, None]

  /** can_send(f) from the initial state, up to the test of xmit_stopped. */
  lemma FirstSend(f: Frame) returns (acts: seq<Action>)
    ensures Exec(InitTx(Slots(f)), acts)
            == Mark(f, Rested(0, 1, f, [f], []), true, TxbFree, NONE, NONE, EMPTY, RTest(f, true), HIdle, [])
  {
    var s := InitTx(Slots(f));
    acts := [Call(f)];
    ExecOne(s, [], Call(f));
    assert [] + [Call(f)] == acts;
    var s1 := Exec(s, acts);
    assert s1 == s.(rpc := RTry(f), calls := [f]);
    ExecOne(s, acts, RpcMoves);
    acts := acts + [RpcMoves];
    var s2 := Exec(s, acts);
    assert s2 == s1.(rpc := RPush(f), ring := s.ring.(prod := PCheck(f)));
    PushRuns(s2, f);
    ExecTimes(s, acts, RpcMoves, 5);
    acts := acts + Repeat(RpcMoves, 5);
    var s3 := Exec(s, acts);
    assert s3.ring == AfterPush(s2.ring, f).(prod := PDone(f, true));
    assert Slots(f)[0 := f] == Slots(f);
    ExecOne(s, acts, RpcMoves);
    acts := acts + [RpcMoves];
    assert Exec(s, acts).ring == Rested(0, 1, f, [f], []);
  }

  /** start_xmit at a free buffer. */
  lemma FlagRuns(s: Tx)
    requires Shape(s) && s.rpc.RScan? && s.rpc.i < TXB_NUM && !s.txreq.Get(s.rpc.i)
    ensures Times(s, RpcMoves, 3)
            == s.(rpc := RScan(s.rpc.frame, s.rpc.ok, s.rpc.i + 1), txif := s.txif.Set(s.rpc.i, true), xmitStopped := false)
  {
    var f, ok, i := s.rpc.frame, s.rpc.ok, s.rpc.i;
    LookMoves(s);
    var s1 := s.(rpc := RFlag(f, ok, i));
    FlagMoves(s1);
    var s2 := s1.(rpc := RResume(f, ok, i), txif := s.txif.Set(i, true));
    ResumeMoves(s2);
    ThreeTimes(s, RpcMoves);
  }

  lemma ThreeTimes(s: Tx, a: Action)
    ensures Times(s, a, 3) == Step(Step(Step(s, a), a), a)
  {
    assert Times(s, a, 1) == Step(Times(s, a, 0), a);
    assert Times(s, a, 2) == Step(Times(s, a, 1), a);
  }

  lemma LookMoves(s: Tx)
    requires Shape(s) && s.rpc.RScan? && s.rpc.i < TXB_NUM && !s.txreq.Get(s.rpc.i)
    ensures Step(s, RpcMoves) == s.(rpc := RFlag(s.rpc.frame, s.rpc.ok, s.rpc.i))
  {
  }

  lemma FlagMoves(s: Tx)
    requires Shape(s) && s.rpc.RFlag? && s.rpc.i < TXB_NUM
    ensures Step(s, RpcMoves)
         == s.(rpc := RResume(s.rpc.frame, s.rpc.ok, s.rpc.i), txif := s.txif.Set(s.rpc.i, true))
  {
  }

  lemma ResumeMoves(s: Tx)
    requires Shape(s) && s.rpc.RResume? && s.rpc.i < TXB_NUM
    ensures Step(s, RpcMoves) == s.(rpc := RScan(s.rpc.frame, s.rpc.ok, s.rpc.i + 1), xmitStopped := false)
  {
  }

  /** The first call sets the flags of all three buffers. */
  lemma FirstScan(f: Frame) returns (acts: seq<Action>)
    ensures Exec(InitTx(Slots(f)), acts)
            == Mark(f, Rested(0, 1, f, [f], []), false, TxbRpc, NONE, ALL, EMPTY, RScan(f, true, 3), HIdle, [])
  {
    acts := FirstSend(f);
    var s := InitTx(Slots(f));
    var m := Exec(s, acts);
    ExecTimes(s, acts, RpcMoves, 2);
    acts := acts + Repeat(RpcMoves, 2);
    assert Times(m, RpcMoves, 1) == m.(rpc := RLock(f, true));
    assert Exec(s, acts) == m.(rpc := RScan(f, true, 0), txbLock := TxbRpc);
    FlagRuns(Exec(s, acts));
    ExecTimes(s, acts, RpcMoves, 3);
    acts := acts + Repeat(RpcMoves, 3);
    FlagRuns(Exec(s, acts));
    ExecTimes(s, acts, RpcMoves, 3);
    acts := acts + Repeat(RpcMoves, 3);
    FlagRuns(Exec(s, acts));
    ExecTimes(s, acts, RpcMoves, 3);
    acts := acts + Repeat(RpcMoves, 3);
  }

  /** ... and returns. */
  lemma FirstReturn(f: Frame) returns (acts: seq<Action>)
    ensures Exec(InitTx(Slots(f)), acts)
            == Mark(f, Rested(0, 1, f, [f], []), false, TxbFree, NONE, ALL, EMPTY, RIdle, HIdle, [f])
  {
    acts := FirstScan(f);
    var e := Exec(InitTx(Slots(f)), acts);
    ExecTimes(InitTx(Slots(f)), acts, RpcMoves, 3);
    acts := acts + Repeat(RpcMoves, 3);
    assert Times(e, RpcMoves, 1) == e.(rpc := RUnlock(f, true));
    assert Times(e, RpcMoves, 2) == e.(rpc := REnd(f, true), txbLock := TxbFree);
  }

  /** The callback claims all buffers ... */
  lemma CallbackClaims(f: Frame) returns (acts: seq<Action>)
    ensures Exec(InitTx(Slots(f)), acts)
            == Mark(f, Rested(0, 1, f, [f], []).(cons := CCheck), false, TxbFree, NONE, NONE, EMPTY,
                    RIdle, HPop(ALL, NONE, 2), [f])
  {
    acts := FirstReturn(f);
    var s := InitTx(Slots(f));
    var m := Exec(s, acts);
    ExecOne(s, acts, Interrupt);
    acts := acts + [Interrupt];
    var m1 := m.(irq := HRead);
    assert Exec(s, acts) == m1;
    ExecTimes(s, acts, IrqMoves, 3);
    acts := acts + Repeat(IrqMoves, 3);
    assert Times(m1, IrqMoves, 1) == m.(irq := HClear(ALL));
    assert Times(m1, IrqMoves, 2) == m.(irq := HScan(ALL, NONE, 3), txif := NONE);
  }

  /** ... takes the frame ... */
  lemma CallbackPops(f: Frame) returns (acts: seq<Action>)
    ensures Exec(InitTx(Slots(f)), acts)
            == Mark(f, Rested(1, 1, f, [f], [f]).(cons := CDone(Some(f))), false, TxbFree, NONE, NONE, EMPTY,
                    RIdle, HPop(ALL, NONE, 2), [f])
  {
    acts := CallbackClaims(f);
    var s := InitTx(Slots(f));
    var m2 := Exec(s, acts);
    PopRuns(m2, f);
    ExecTimes(s, acts, IrqMoves, 5);
    acts := acts + Repeat(IrqMoves, 5);
  }

  /** ... and loads buffer 2. */
  lemma CallbackLoads(f: Frame) returns (acts: seq<Action>)
    ensures Exec(InitTx(Slots(f)), acts)
            == Mark(f, Rested(1, 1, f, [f], [f]), false, TxbFree, NONE, NONE, EMPTY[2 := Some(f)],
                    RIdle, HScan(ALL, TOP, 2), [f])
  {
    acts := CallbackPops(f);
    var m3 := Exec(InitTx(Slots(f)), acts);
    ExecTimes(InitTx(Slots(f)), acts, IrqMoves, 2);
    acts := acts + Repeat(IrqMoves, 2);
    var ring := Rested(1, 1, f, [f], [f]);
    assert Times(m3, IrqMoves, 1) == m3.(irq := HLoad(ALL, NONE, 2, f), ring := ring);
  }

  /** At buffer 1 it finds the queue empty and stops transmission. */
  lemma CallbackStops(f: Frame) returns (acts: seq<Action>)
    ensures Exec(InitTx(Slots(f)), acts)
            == Mark(f, Rested(1, 1, f, [f], [f]), true, TxbFree, NONE, NONE, EMPTY[2 := Some(f)],
                    RIdle, HScan(ALL, TOP, 1), [f])
  {
    acts := CallbackLoads(f);
    var s := InitTx(Slots(f));
    EmptyPop(Exec(s, acts));
    ExecTimes(s, acts, IrqMoves, 3);
    acts := acts + Repeat(IrqMoves, 3);
    StopRuns(Exec(s, acts));
    ExecTimes(s, acts, IrqMoves, 3);
    acts := acts + Repeat(IrqMoves, 3);
  }

  lemma EmptyPop(s: Tx)
    requires Shape(s) && s.irq.HScan? && 0 < s.irq.n <= TXB_NUM && s.irq.tx.Get(s.irq.n - 1)
    requires s.ring.cons == CIdle && s.ring.tail == s.ring.head
    ensures Times(s, IrqMoves, 3) == s.(irq := HStopLock(s.irq.tx, s.irq.rts, s.irq.n - 1))
  {
    var tx, rts, i := s.irq.tx, s.irq.rts, s.irq.n - 1;
    var s1 := s.(irq := HPop(tx, rts, i), ring := s.ring.(cons := CCheck));
    assert s1 == Times(s, IrqMoves, 1);
    PopMoves(s1);
    var s2 := s1.(ring := s.ring.(cons := CDone(None)));
    assert s2 == Times(s, IrqMoves, 2);
    assert s.(irq := HStopLock(tx, rts, i)) == Step(s2, IrqMoves);
  }

  lemma StopRuns(s: Tx)
    requires Shape(s) && s.irq.HStopLock? && s.txbLock == TxbFree
    ensures Times(s, IrqMoves, 3) == s.(irq := HScan(s.irq.tx, s.irq.rts, s.irq.i), xmitStopped := true)
  {
    var tx, rts, i := s.irq.tx, s.irq.rts, s.irq.i;
    var s1 := s.(irq := HStopSet(tx, rts, i), txbLock := TxbIrq);
    assert s1 == Times(s, IrqMoves, 1);
    var s2 := s1.(irq := HStopUnlock(tx, rts, i), xmitStopped := true);
    assert s2 == Times(s, IrqMoves, 2);
    assert Times(s, IrqMoves, 3) == Step(s2, IrqMoves);
  }

  /** A second call queues f ... */
  lemma SecondPush(f: Frame) returns (acts: seq<Action>)
    ensures Exec(InitTx(Slots(f)), acts)
            == Mark(f, Rested(1, 2, f, [f, f], [f]).(prod := PDone(f, true)), true, TxbFree, NONE, NONE,
                    EMPTY[2 := Some(f)], RPush(f), HScan(ALL, TOP, 1), [f])
  {
    acts := CallbackStops(f);
    var s := InitTx(Slots(f));
    var m := Exec(s, acts);
    ExecOne(s, acts, Call(f));
    acts := acts + [Call(f)];
    ExecOne(s, acts, RpcMoves);
    acts := acts + [RpcMoves];
    var m1 := m.(rpc := RPush(f), ring := m.ring.(prod := PCheck(f)), calls := [f, f]);
    assert Exec(s, acts) == m1;
    PushRuns(m1, f);
    ExecTimes(s, acts, RpcMoves, 5);
    acts := acts + Repeat(RpcMoves, 5);
    assert Slots(f)[1 := f] == Slots(f);
  }

  /** ... and finds buffer 0 free. */
  lemma SecondSend(f: Frame) returns (acts: seq<Action>)
    ensures Exec(InitTx(Slots(f)), acts)
            == Mark(f, Rested(1, 2, f, [f, f], [f]), true, TxbRpc, NONE, NONE, EMPTY[2 := Some(f)],
                    RFlag(f, true, 0), HScan(ALL, TOP, 1), [f])
  {
    acts := SecondPush(f);
    var s := InitTx(Slots(f));
    var m2 := Exec(s, acts);
    ExecTimes(s, acts, RpcMoves, 4);
    acts := acts + Repeat(RpcMoves, 4);
    var m := m2.(rpc := RTest(f, true), ring := Rested(1, 2, f, [f, f], [f]));
    assert Times(m2, RpcMoves, 1) == m;
    assert Times(m2, RpcMoves, 2) == m.(rpc := RLock(f, true));
    assert Times(m2, RpcMoves, 3) == m.(rpc := RScan(f, true, 0), txbLock := TxbRpc);
  }

  /** The callback takes the new frame for buffer 0 ... */
  lemma CallbackTakes(f: Frame) returns (acts: seq<Action>)
    ensures Exec(InitTx(Slots(f)), acts)
            == Mark(f, Rested(2, 2, f, [f, f], [f, f]).(cons := CDone(Some(f))), true, TxbRpc, NONE, NONE,
                    EMPTY[2 := Some(f)], RFlag(f, true, 0), HPop(ALL, TOP, 0), [f])
  {
    acts := SecondSend(f);
    var s := InitTx(Slots(f));
    var m := Exec(s, acts);
    ExecOne(s, acts, IrqMoves);
    acts := acts + [IrqMoves];
    var m1 := m.(irq := HPop(ALL, TOP, 0), ring := m.ring.(cons := CCheck));
    assert Exec(s, acts) == m1;
    PopRuns(m1, f);
    ExecTimes(s, acts, IrqMoves, 5);
    acts := acts + Repeat(IrqMoves, 5);
  }

  /** ... loads it and requests to send. */
  lemma CallbackSends(f: Frame) returns (acts: seq<Action>)
    ensures Exec(InitTx(Slots(f)), acts)
            == Mark(f, Rested(2, 2, f, [f, f], [f, f]), true, TxbRpc, ENDS, NONE,
                    [Some(f), None, Some(f)], RFlag(f, true, 0), HIdle, [f])
  {
    acts := CallbackTakes(f);
    var s := InitTx(Slots(f));
    var m2 := Exec(s, acts);
    ExecTimes(s, acts, IrqMoves, 4);
    acts := acts + Repeat(IrqMoves, 4);
    var m := m2.(irq := HLoad(ALL, TOP, 0, f), ring := Rested(2, 2, f, [f, f], [f, f]));
    assert Times(m2, IrqMoves, 1) == m;
    var loaded := [Some(f), None, Some(f)];
    assert EMPTY[2 := Some(f)][0 := Some(f)] == loaded;
    assert Times(m2, IrqMoves, 2) == m.(irq := HScan(ALL, ENDS, 0), buffers := loaded);
    assert Times(m2, IrqMoves, 3) == m.(irq := HRts(ENDS), buffers := loaded);
  }

  const FIRST := Bits(true, false, false)
  const LOW := Bits(true, true, false)

  /** Then start_xmit sets the flag of buffer 0, which it found free before the callback loaded
      it: the flag claims the buffer is done while a frame is pending in it. */
  lemma OverlapBreaksBuffers(f: Frame) returns (acts: seq<Action>)
    ensures var s := Exec(InitTx(Slots(f)), acts);
            && s.txif.Get(0) && s.txreq.Get(0)
            && s == Mark(f, Rested(2, 2, f, [f, f], [f, f]), true, TxbRpc, ENDS, FIRST,
                         [Some(f), None, Some(f)], RResume(f, true, 0), HIdle, [f])
    ensures !AlwaysOk(InitTx(Slots(f)), acts) && !NoClash(InitTx(Slots(f)), acts)
  {
    acts := CallbackSends(f);
    var s := InitTx(Slots(f));
    ExecOne(s, acts, RpcMoves);
    acts := acts + [RpcMoves];
    var r := Exec(s, acts);
    assert r.txif.Get(0) && r.txreq.Get(0);
    assert !BufferOk(r, 0);
    BuffersOkIff(Slots(f), acts);
  }

  // ------------------------------------------------------- and the lost frame

  /** Action a, n times, takes the run on from s to t. */
  lemma Then(s0: Tx, acts: seq<Action>, a: Action, n: nat, t: Tx) returns (acts': seq<Action>)
    requires Times(Exec(s0, acts), a, n) == t
    ensures Exec(s0, acts') == t
  {
    ExecTimes(s0, acts, a, n);
    acts' := acts + Repeat(a, n);
  }

  lemma TimesOne(s: Tx, a: Action)
    ensures Times(s, a, 1) == Step(s, a)
  {
    assert Times(s, a, 0) == s;
  }

  /** The end of an attempt whose frame is queued, from the last buffer on. */
  lemma EndRuns(s: Tx)
    requires Shape(s) && s.rpc.RScan? && s.rpc.i == TXB_NUM && s.rpc.ok
    ensures Times(s, RpcMoves, 3) == s.(rpc := RIdle, txbLock := TxbFree, returned := s.returned + [s.rpc.frame])
  {
    var f := s.rpc.frame;
    assert Times(s, RpcMoves, 1) == s.(rpc := RUnlock(f, true));
    assert Times(s, RpcMoves, 2) == s.(rpc := REnd(f, true), txbLock := TxbFree);
  }

  /** start_xmit goes on: it flags buffer 1 ... */
  lemma AttemptResumes(f: Frame) returns (acts: seq<Action>)
    ensures Exec(InitTx(Slots(f)), acts)
            == Mark(f, Rested(2, 2, f, [f, f], [f, f]), false, TxbRpc, ENDS, LOW,
                    [Some(f), None, Some(f)], RScan(f, true, 2), HIdle, [f])
  {
    acts := OverlapBreaksBuffers(f);
    var s := InitTx(Slots(f));
    var m := Exec(s, acts);
    var m1 := m.(rpc := RScan(f, true, 1), xmitStopped := false);
    TimesOne(m, RpcMoves);
    acts := Then(s, acts, RpcMoves, 1, m1);
    FlagRuns(m1);
    acts := Then(s, acts, RpcMoves, 3, m1.(rpc := RScan(f, true, 2), txif := LOW));
  }

  /** ... passes buffer 2, and can_send returns. */
  lemma AttemptEnds(f: Frame) returns (acts: seq<Action>)
    ensures Exec(InitTx(Slots(f)), acts)
            == Mark(f, Rested(2, 2, f, [f, f], [f, f]), false, TxbFree, ENDS, LOW,
                    [Some(f), None, Some(f)], RIdle, HIdle, [f, f])
  {
    acts := AttemptResumes(f);
    var s := InitTx(Slots(f));
    var m := Exec(s, acts);
    var m1 := m.(rpc := RScan(f, true, 3));
    TimesOne(m, RpcMoves);
    acts := Then(s, acts, RpcMoves, 1, m1);
    EndRuns(m1);
    acts := Then(s, acts, RpcMoves, 3, m1.(rpc := RIdle, txbLock := TxbFree, returned := [f, f]));
  }

  lemma SendBegins(s: Tx, f: Frame)
    requires Shape(s) && s.rpc == RIdle && s.ring.prod == PIdle
    ensures Step(Step(s, Call(f)), RpcMoves)
         == s.(rpc := RPush(f), ring := s.ring.(prod := PCheck(f)), calls := s.calls + [f])
  {
    assert Step(s, Call(f)) == s.(rpc := RTry(f), calls := s.calls + [f]);
  }

  lemma SendEnds(s: Tx, f: Frame)
    requires Shape(s) && s.rpc == RPush(f) && s.ring.prod == PDone(f, true) && !s.xmitStopped
    ensures Times(s, RpcMoves, 3) == s.(rpc := RIdle, ring := s.ring.(prod := PIdle), returned := s.returned + [f])
  {
    var ring := s.ring.(prod := PIdle);
    assert Times(s, RpcMoves, 1) == s.(rpc := RTest(f, true), ring := ring);
    assert Times(s, RpcMoves, 2) == s.(rpc := REnd(f, true), ring := ring);
  }

  ghost predicate CanSend(s: Tx) {
    && Shape(s) && s.rpc == RIdle && !s.xmitStopped
    && s.ring.prod == PIdle && s.ring.lock == Free && Next(s.ring.tail, |s.ring.slots|) != s.ring.head
  }

  /** can_send(f) while the callback is idle, there is room, and transmission is not stopped. */
  lemma SendRuns(s0: Tx, acts: seq<Action>, s: Tx, f: Frame) returns (acts': seq<Action>)
    requires Exec(s0, acts) == s && CanSend(s)
    ensures Exec(s0, acts')
         == s.(ring := AfterPush(s.ring, f), calls := s.calls + [f], returned := s.returned + [f])
  {
    SendBegins(s, f);
    TimesOne(s, Call(f));
    acts' := Then(s0, acts, Call(f), 1, Step(s, Call(f)));
    var s1 := s.(rpc := RPush(f), ring := s.ring.(prod := PCheck(f)), calls := s.calls + [f]);
    TimesOne(Step(s, Call(f)), RpcMoves);
    acts' := Then(s0, acts', RpcMoves, 1, s1);
    PushRuns(s1, f);
    var s2 := s1.(ring := AfterPush(s1.ring, f).(prod := PDone(f, true)));
    acts' := Then(s0, acts', RpcMoves, 5, s2);
    SendEnds(s2, f);
    acts' := Then(s0, acts', RpcMoves, 3,
                  s2.(rpc := RIdle, ring := s2.ring.(prod := PIdle), returned := s.returned + [f]));
  }

  lemma ServeBegins(s: Tx)
    requires Shape(s) && s.irq.HScan? && 0 < s.irq.n <= TXB_NUM && s.irq.tx.Get(s.irq.n - 1) && s.ring.cons == CIdle
    ensures Step(s, IrqMoves)
         == s.(irq := HPop(s.irq.tx, s.irq.rts, s.irq.n - 1), ring := s.ring.(cons := CCheck))
  {
  }

  lemma ServeEnds(s: Tx, f: Frame)
    requires Shape(s) && s.irq.HPop? && s.irq.i < TXB_NUM && s.ring.cons == CDone(Some(f))
    ensures var i := s.irq.i;
            Times(s, IrqMoves, 2)
            == s.(irq := HScan(s.irq.tx, s.irq.rts.Set(i, true), i), ring := s.ring.(cons := CIdle),
                  buffers := s.buffers[i := Some(f)], lost := s.lost + Held(s.buffers[i]))
  {
    var s1 := s.(irq := HLoad(s.irq.tx, s.irq.rts, s.irq.i, f), ring := s.ring.(cons := CIdle));
    assert Times(s, IrqMoves, 1) == s1;
    assert Times(s, IrqMoves, 2) == Step(s1, IrqMoves);
  }

  ghost predicate CanServe(s: Tx, f: Frame) {
    && Shape(s) && s.irq.HScan? && 0 < s.irq.n <= TXB_NUM && s.irq.tx.Get(s.irq.n - 1)
    && s.ring.cons == CIdle && s.ring.lock == Free
    && s.ring.tail != s.ring.head && s.ring.slots[s.ring.head] == f
  }

  /** The callback takes a frame for the next buffer ... */
  lemma ServeTakes(s0: Tx, acts: seq<Action>, s: Tx, f: Frame) returns (acts': seq<Action>)
    requires Exec(s0, acts) == s && CanServe(s, f)
    ensures Exec(s0, acts')
         == s.(irq := HPop(s.irq.tx, s.irq.rts, s.irq.n - 1), ring := AfterPop(s.ring).(cons := CDone(Some(f))))
  {
    ServeBegins(s);
    var s1 := s.(irq := HPop(s.irq.tx, s.irq.rts, s.irq.n - 1), ring := s.ring.(cons := CCheck));
    TimesOne(s, IrqMoves);
    acts' := Then(s0, acts, IrqMoves, 1, s1);
    PopRuns(s1, f);
    acts' := Then(s0, acts', IrqMoves, 5, s1.(ring := AfterPop(s1.ring).(cons := CDone(Some(f)))));
  }

  /** ... and loads it. */
  lemma ServeRuns(s0: Tx, acts: seq<Action>, s: Tx, f: Frame) returns (acts': seq<Action>)
    requires Exec(s0, acts) == s && CanServe(s, f)
    ensures var i := s.irq.n - 1;
            Exec(s0, acts')
            == s.(irq := HScan(s.irq.tx, s.irq.rts.Set(i, true), i), ring := AfterPop(s.ring),
                  buffers := s.buffers[i := Some(f)], lost := s.lost + Held(s.buffers[i]))
  {
    var tx, rts, i := s.irq.tx, s.irq.rts, s.irq.n - 1;
    acts' := ServeTakes(s0, acts, s, f);
    var s2 := s.(irq := HPop(tx, rts, i), ring := AfterPop(s.ring).(cons := CDone(Some(f))));
    ServeEnds(s2, f);
    acts' := Then(s0, acts', IrqMoves, 2,
                  s2.(irq := HScan(tx, rts.Set(i, true), i), ring := s2.ring.(cons := CIdle),
                      buffers := s2.buffers[i := Some(f)], lost := s2.lost + Held(s2.buffers[i])));
  }

  /** Two more frames are queued ... */
  lemma TwoMore(f: Frame) returns (acts: seq<Action>)
    ensures Exec(InitTx(Slots(f)), acts)
            == Mark(f, Rested(2, 1, f, [f, f, f, f], [f, f]), false, TxbFree, ENDS, LOW,
                    [Some(f), None, Some(f)], RIdle, HIdle, [f, f, f, f])
  {
    acts := AttemptEnds(f);
    var s := InitTx(Slots(f));
    var m := Exec(s, acts);
    assert Slots(f)[2 := f] == Slots(f) && Slots(f)[0 := f] == Slots(f);
    acts := SendRuns(s, acts, m, f);
    var m1 := m.(ring := Rested(2, 0, f, [f, f, f], [f, f]), calls := [f, f, f], returned := [f, f, f]);
    assert AfterPush(m.ring, f) == m1.ring;
    acts := SendRuns(s, acts, m1, f);
    assert AfterPush(m1.ring, f) == Rested(2, 1, f, [f, f, f, f], [f, f]);
  }

  /** ... and the callback finds the flags of buffers 0 and 1. */
  lemma CallbackAgain(f: Frame) returns (acts: seq<Action>)
    ensures Exec(InitTx(Slots(f)), acts)
            == Mark(f, Rested(2, 1, f, [f, f, f, f], [f, f]), false, TxbFree, ENDS, NONE,
                    [Some(f), None, Some(f)], RIdle, HScan(LOW, NONE, 2), [f, f, f, f])
  {
    acts := TwoMore(f);
    var s := InitTx(Slots(f));
    var m := Exec(s, acts);
    TimesOne(m, Interrupt);
    var m1 := m.(irq := HRead);
    acts := Then(s, acts, Interrupt, 1, m1);
    assert Times(m1, IrqMoves, 1) == m.(irq := HClear(LOW));
    assert Times(m1, IrqMoves, 2) == m.(irq := HScan(LOW, NONE, 3), txif := NONE);
    acts := Then(s, acts, IrqMoves, 3, m.(irq := HScan(LOW, NONE, 2), txif := NONE));
  }

  /** The callback overwrites the frame that is pending in buffer 0. */
  lemma OverlapLosesFrame(f: Frame) returns (acts: seq<Action>)
    ensures var s := Exec(InitTx(Slots(f)), acts);
            s.lost == multiset{f} && s.returned == [f, f, f, f] && s.sent == multiset{}
  {
    acts := CallbackAgain(f);
    var s := InitTx(Slots(f));
    var m := Exec(s, acts);
    acts := ServeRuns(s, acts, m, f);
    var m1 := m.(irq := HScan(LOW, Bits(false, true, false), 1), ring := AfterPop(m.ring),
                 buffers := m.buffers[1 := Some(f)]);
    assert Exec(s, acts) == m1;
    acts := ServeRuns(s, acts, m1, f);
  }
}
