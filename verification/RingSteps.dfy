/**
 One producer and one consumer on a message queue, interleaved at the granularity of the
 code: the full and empty tests are made before the lock is taken, and the frame copy and
 the index update are separate steps. Every interleaving behaves as a bounded FIFO.
 */
module RingSteps {
  import opened Ring

  datatype Owner = Free | ByProducer | ByConsumer

  /** Where the producer stands in a push of frame f. */
  datatype Producer<+F> =
    | PIdle
    | PCheck(f: F)             // about to test for a full ring
    | PLock(f: F)              // found room, waiting for the lock
    | PCopy(f: F)
    | PAdvance(f: F)           // frame copied, tail not yet advanced
    | PUnlock(f: F)
    | PDone(f: F, ok: bool)

  datatype Consumer<+F> =
    | CIdle
    | CCheck
    | CLock
    | CCopy
    | CAdvance(f: F)
    | CUnlock(f: F)
    | CDone(got: Option<F>)

  datatype RingState<F> = RingState(
    slots: seq<F>,
    head: nat,
    tail: nat,
    lock: Owner,
    prod: Producer<F>,
    cons: Consumer<F>,
    pushed: seq<F>,            // every frame queued so far
    popped: seq<F>)            // every frame taken so far

  function InitRing<F>(slots: seq<F>): RingState<F> {
    RingState(slots, 0, 0, Free, PIdle, CIdle, [], [])
  }

  predicate ProducerReady<F>(r: RingState<F>) {
    && Indices(|r.slots|, r.head, r.tail)
    && !r.prod.PIdle? && !r.prod.PDone?
    && (r.prod.PLock? ==> r.lock.Free?)
  }

  function StepProducer<F>(r: RingState<F>): RingState<F>
    requires ProducerReady(r)
  {
    match r.prod
    case PCheck(f) =>
      r.(prod := if Next(r.tail, |r.slots|) == r.head then PDone(f, false) else PLock(f))
    case PLock(f) => r.(lock := ByProducer, prod := PCopy(f))
    case PCopy(f) => r.(slots := r.slots[r.tail := f], prod := PAdvance(f))
    case PAdvance(f) => r.(tail := Next(r.tail, |r.slots|), pushed := r.pushed + [f], prod := PUnlock(f))
    case PUnlock(f) => r.(lock := Free, prod := PDone(f, true))
    case _ => r
  }

  predicate ConsumerReady<F>(r: RingState<F>) {
    && Indices(|r.slots|, r.head, r.tail)
    && !r.cons.CIdle? && !r.cons.CDone?
    && (r.cons.CLock? ==> r.lock.Free?)
  }

  function StepConsumer<F>(r: RingState<F>): RingState<F>
    requires ConsumerReady(r)
  {
    match r.cons
    case CCheck => r.(cons := if r.tail == r.head then CDone(None) else CLock)
    case CLock => r.(lock := ByConsumer, cons := CCopy)
    case CCopy => r.(cons := CAdvance(r.slots[r.head]))
    case CAdvance(f) => r.(head := Next(r.head, |r.slots|), popped := r.popped + [f], cons := CUnlock(f))
    case CUnlock(f) => r.(lock := Free, cons := CDone(Some(f)))
    case _ => r
  }

  function Queue<F>(r: RingState<F>): seq<F>
    requires Indices(|r.slots|, r.head, r.tail)
  {
    Live(r.slots, r.head, r.tail)
  }

  predicate ProducerHasRoom<F>(r: RingState<F>) {
    r.prod.PLock? || r.prod.PCopy? || r.prod.PAdvance?
  }

  predicate ConsumerHasFrame<F>(r: RingState<F>) {
    r.cons.CLock? || r.cons.CCopy? || r.cons.CAdvance?
  }

  ghost predicate RingInv<F>(r: RingState<F>) {
    && Indices(|r.slots|, r.head, r.tail)
    && r.popped + Queue(r) == r.pushed
    && (ProducerHasRoom(r) ==> Next(r.tail, |r.slots|) != r.head)
    && (r.prod.PAdvance? ==> r.slots[r.tail] == r.prod.f)
    && (ConsumerHasFrame(r) ==> r.tail != r.head)
    && (r.cons.CAdvance? ==> r.slots[r.head] == r.cons.f)
    && (r.lock.ByProducer? <==> r.prod.PCopy? || r.prod.PAdvance? || r.prod.PUnlock?)
    && (r.lock.ByConsumer? <==> r.cons.CCopy? || r.cons.CAdvance? || r.cons.CUnlock?)
  }

  // ------------------------------------------------------- the bounded FIFO

  datatype FifoEvent<+F> = Quiet | Accepted(f: F) | Refused | Taken(f: F) | FoundEmpty

  /** A FIFO that holds at most `capacity` frames. */
  ghost predicate FifoStep<F>(q: seq<F>, e: FifoEvent<F>, q': seq<F>, capacity: int) {
    match e
    case Quiet => q' == q
    case Accepted(f) => |q| < capacity && q' == q + [f]
    case Refused => |q| == capacity && q' == q
    case Taken(f) => q == [f] + q'
    case FoundEmpty => q == [] && q' == q
  }

  function ProducerEvent<F>(r: RingState<F>): FifoEvent<F>
    requires ProducerReady(r)
  {
    match r.prod
    case PCheck(_) => if Next(r.tail, |r.slots|) == r.head then Refused else Quiet
    case PAdvance(f) => Accepted(f)
    case _ => Quiet
  }

  function ConsumerEvent<F>(r: RingState<F>): FifoEvent<F>
    requires ConsumerReady(r)
  {
    match r.cons
    case CCheck => if r.tail == r.head then FoundEmpty else Quiet
    case CAdvance(f) => Taken(f)
    case _ => Quiet
  }

  /** Each producer step is a step of the FIFO, and one lock holder at a time is kept. */
  lemma ProducerSimulates<F>(r: RingState<F>)
    requires RingInv(r) && ProducerReady(r)
    ensures RingInv(StepProducer(r)) && |StepProducer(r).slots| == |r.slots|
    ensures FifoStep(Queue(r), ProducerEvent(r), Queue(StepProducer(r)), |r.slots| - 1)
  {
    FullAndEmpty(r.slots, r.head, r.tail);
    match r.prod
    case PCopy(f) =>
      WriteTail(r.slots, r.head, r.tail, f);
    case PAdvance(f) =>
      AdvanceTail(r.slots, r.head, r.tail);
      assert r.popped + (Queue(r) + [f]) == r.pushed + [f];
      FullAndEmpty(r.slots, r.head, Next(r.tail, |r.slots|));
    case _ =>
  }

  lemma ConsumerSimulates<F>(r: RingState<F>)
    requires RingInv(r) && ConsumerReady(r)
    ensures RingInv(StepConsumer(r)) && |StepConsumer(r).slots| == |r.slots|
    ensures FifoStep(Queue(r), ConsumerEvent(r), Queue(StepConsumer(r)), |r.slots| - 1)
  {
    FullAndEmpty(r.slots, r.head, r.tail);
    match r.cons
    case CAdvance(f) =>
      AdvanceHead(r.slots, r.head, r.tail);
      assert r.popped + Queue(r) == (r.popped + [f]) + Queue(StepConsumer(r));
      FullAndEmpty(r.slots, Next(r.head, |r.slots|), r.tail);
    case _ =>
  }

  // ------------------------------------------------------------------- runs

  datatype RingAction<+F> =
    | BeginPush(f: F) | EndPush | ProducerMoves
    | BeginPop | EndPop | ConsumerMoves

  predicate CanAct<F>(r: RingState<F>, a: RingAction<F>) {
    match a
    case BeginPush(_) => r.prod.PIdle?
    case EndPush => r.prod.PDone?
    case ProducerMoves => ProducerReady(r)
    case BeginPop => r.cons.CIdle?
    case EndPop => r.cons.CDone?
    case ConsumerMoves => ConsumerReady(r)
  }

  function Act<F>(r: RingState<F>, a: RingAction<F>): RingState<F>
    requires CanAct(r, a)
  {
    match a
    case BeginPush(f) => r.(prod := PCheck(f))
    case EndPush => r.(prod := PIdle)
    case ProducerMoves => StepProducer(r)
    case BeginPop => r.(cons := CCheck)
    case EndPop => r.(cons := CIdle)
    case ConsumerMoves => StepConsumer(r)
  }

  function EventOf<F>(r: RingState<F>, a: RingAction<F>): FifoEvent<F>
    requires CanAct(r, a)
  {
    match a
    case ProducerMoves => ProducerEvent(r)
    case ConsumerMoves => ConsumerEvent(r)
    case _ => Quiet
  }

  ghost predicate RingRun<F>(r: RingState<F>, acts: seq<RingAction<F>>, r': RingState<F>, es: seq<FifoEvent<F>>)
    decreases |acts|
  {
    && |acts| == |es|
    && if acts == [] then r' == r
       else CanAct(r, acts[0]) && es[0] == EventOf(r, acts[0]) && RingRun(Act(r, acts[0]), acts[1..], r', es[1..])
  }

  ghost predicate FifoRun<F(!new)>(q: seq<F>, es: seq<FifoEvent<F>>, q': seq<F>, capacity: int)
    decreases |es|
  {
    if es == [] then q' == q
    else exists m :: FifoStep(q, es[0], m, capacity) && FifoRun(m, es[1..], q', capacity)
  }

  /** Linearizability: every interleaving of pushes and pops is a run of the bounded FIFO, with
      each push and pop taking effect at one of its own steps. */
  lemma {:induction false} RingIsFifo<F(!new)>(r: RingState<F>, acts: seq<RingAction<F>>, r': RingState<F>, es: seq<FifoEvent<F>>)
    requires RingInv(r) && RingRun(r, acts, r', es)
    ensures RingInv(r') && |r'.slots| == |r.slots|
    ensures FifoRun(Queue(r), es, Queue(r'), |r.slots| - 1)
    decreases |acts|
  {
    if acts != [] {
      var m := Act(r, acts[0]);
      match acts[0] {
        case ProducerMoves => ProducerSimulates(r);
        case ConsumerMoves => ConsumerSimulates(r);
        case _ =>
      }
      RingIsFifo(m, acts[1..], r', es[1..]);
      assert FifoStep(Queue(r), es[0], Queue(m), |r.slots| - 1);
    }
  }

  lemma InitRingInv<F>(slots: seq<F>)
    requires 0 < |slots|
    ensures RingInv(InitRing(slots)) && Queue(InitRing(slots)) == []
  {
  }
}
