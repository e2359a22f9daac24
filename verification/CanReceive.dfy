/**
 Reception: the interrupt callback pushes received frames into the receive queue and posts a
 counting semaphore for each of them, queued or dropped; the RPC thread in can_recv waits on
 the semaphore and then pops. The two are interleaved at the granularity of RingSteps.
 */
module CanReceive {
  import opened CanInf
  import opened Ring
  import opened RingSteps

  /** Where the interrupt callback stands in receive_message. */
  datatype Receiver = QIdle | QPush | QPost

  /** Where the RPC thread stands in can_recv. */
  datatype Client = VIdle | VWait | VPop

  datatype Rx = Rx(
    ring: RingState<Frame>,
    sem: nat,                        // queue_lock
    irq: Receiver,
    rpc: Client,
    received: seq<Frame>,            // frames read from the controller
    dropped: nat,                    // how many frames found the queue full
    drops: seq<Frame>,               // which frames these were
    empties: nat,                    // can_recv calls that found the queue empty
    results: seq<Option<Frame>>)     // what the can_recv calls that have returned delivered

  datatype RxAction =
    | Receive(frame: Frame)  // the callback reads a receive buffer
    | IrqMoves
    | CallRecv               // a client calls can_recv
    | RpcMoves

  /** After can__init, which takes the initial token of the semaphore. */
  function InitRx(slots: seq<Frame>): Rx {
    Rx(InitRing(slots), 0, QIdle, VIdle, [], 0, [], 0, [])
  }

  predicate RxEnabled(s: Rx, a: RxAction) {
    match a
    case Receive(_) => s.irq.QIdle? && s.ring.prod.PIdle?
    case IrqMoves => s.irq.QPost? || (s.irq.QPush? && (s.ring.prod.PDone? || ProducerReady(s.ring)))
    case CallRecv => s.rpc.VIdle?
    case RpcMoves =>
      || (s.rpc.VWait? && 0 < s.sem && s.ring.cons.CIdle?)
      || (s.rpc.VPop? && (s.ring.cons.CDone? || ConsumerReady(s.ring)))
  }

  function RxStep(s: Rx, a: RxAction): Rx {
    if !RxEnabled(s, a) then s else
    match a
    case Receive(f) => s.(irq := QPush, ring := Act(s.ring, BeginPush(f)), received := s.received + [f])
    case IrqMoves =>
      if s.irq.QPost? then s.(irq := QIdle, sem := s.sem + 1)
      else if s.ring.prod.PDone? then s.(irq := QPost, ring := Act(s.ring, EndPush))
      else
        s.(ring := StepProducer(s.ring),
           dropped := s.dropped + (if ProducerEvent(s.ring).Refused? then 1 else 0),
           drops := s.drops + if ProducerEvent(s.ring).Refused? then [s.ring.prod.f] else [])
    case CallRecv => s.(rpc := VWait)
    case RpcMoves =>
      if s.rpc.VWait? then s.(rpc := VPop, sem := s.sem - 1, ring := Act(s.ring, BeginPop))
      else if s.ring.cons.CDone? then
        s.(rpc := VIdle, ring := Act(s.ring, EndPop), results := s.results + [s.ring.cons.got])
      else
        s.(ring := StepConsumer(s.ring),
           empties := s.empties + if ConsumerEvent(s.ring).FoundEmpty? then 1 else 0)
  }

  function RxExec(s: Rx, acts: seq<RxAction>): Rx {
    if acts == [] then s else RxStep(RxExec(s, acts[..|acts| - 1]), acts[|acts| - 1])
  }

  // ------------------------------------------------------------- accounting

  /** 1 while the callback has queued or dropped a frame and not yet posted for it. */
  function Owed(s: Rx): nat {
    if s.irq.QPost? || (s.irq.QPush? && (s.ring.prod.PUnlock? || s.ring.prod.PDone?)) then 1 else 0
  }

  /** 1 while can_recv has taken a token and not yet used it. */
  function Token(s: Rx): nat {
    if s.rpc.VPop? && (s.ring.cons.CCheck? || ConsumerHasFrame(s.ring)) then 1 else 0
  }

  /** The frame the callback is about to queue. */
  function Arriving(s: Rx): nat {
    if s.irq.QPush? && (s.ring.prod.PCheck? || ProducerHasRoom(s.ring)) then 1 else 0
  }

  ghost predicate RxInv(s: Rx) {
    && RingInv(s.ring)
    && (s.irq.QPush? <==> !s.ring.prod.PIdle?)
    && (s.rpc.VPop? <==> !s.ring.cons.CIdle?)
    && s.sem + Token(s) == |Queue(s.ring)| + s.dropped - s.empties - Owed(s)
    && s.empties <= s.dropped
    && |s.received| == |s.ring.pushed| + s.dropped + Arriving(s)
  }

  lemma IrqAccounts(s: Rx)
    requires RxInv(s) && RxEnabled(s, IrqMoves)
    ensures RxInv(RxStep(s, IrqMoves))
  {
    if s.irq.QPush? && !s.ring.prod.PDone? {
      ProducerSimulates(s.ring);
    }
  }

  /** A token never meets an empty queue more often than frames were dropped: the token that
      finds the queue empty was posted for a dropped frame. */
  lemma RpcAccounts(s: Rx)
    requires RxInv(s) && RxEnabled(s, RpcMoves)
    ensures RxInv(RxStep(s, RpcMoves))
  {
    if s.rpc.VPop? && !s.ring.cons.CDone? {
      ConsumerSimulates(s.ring);
      FullAndEmpty(s.ring.slots, s.ring.head, s.ring.tail);
    }
  }

  /** Accounting holds at every step of every interleaving. */
  lemma {:induction false} SemaphoreAccounts(slots: seq<Frame>, acts: seq<RxAction>)
    requires 0 < |slots|
    ensures RxInv(RxExec(InitRx(slots), acts))
  {
    if acts == [] {
      InitRingInv(slots);
    } else {
      var s, a := RxExec(InitRx(slots), acts[..|acts| - 1]), acts[|acts| - 1];
      SemaphoreAccounts(slots, acts[..|acts| - 1]);
      if a.IrqMoves? && RxEnabled(s, a) {
        IrqAccounts(s);
      } else if a.RpcMoves? && RxEnabled(s, a) {
        RpcAccounts(s);
      }
    }
  }

  /** A can_recv that has to wait waits for a frame: nothing is queued but a frame whose post
      is still owed, and when the callback is idle the queue is empty. */
  lemma BlockedMeansEmpty(slots: seq<Frame>, acts: seq<RxAction>)
    requires 0 < |slots|
    requires var s := RxExec(InitRx(slots), acts); s.rpc.VWait? && s.sem == 0
    ensures var s := RxExec(InitRx(slots), acts);
            Indices(|s.ring.slots|, s.ring.head, s.ring.tail)
            && |Queue(s.ring)| <= Owed(s)
            && (s.irq.QIdle? ==> Queue(s.ring) == [])
  {
    SemaphoreAccounts(slots, acts);
  }

  // ------------------------------------------------ what the clients receive

  function Frames(rs: seq<Option<Frame>>): seq<Frame> {
    if rs == [] then []
    else Frames(rs[..|rs| - 1]) + if rs[|rs| - 1].Some? then [rs[|rs| - 1].value] else []
  }

  function Misses(rs: seq<Option<Frame>>): nat {
    if rs == [] then 0
    else Misses(rs[..|rs| - 1]) + if rs[|rs| - 1].None? then 1 else 0
  }

  /** The frame taken by the current can_recv. */
  function InTransit(c: Consumer<Frame>): seq<Frame> {
    match c
    case CUnlock(f) => [f]
    case CDone(Some(f)) => [f]
    case _ => []
  }

  ghost predicate Delivered(s: Rx) {
    && s.ring.popped == Frames(s.results) + InTransit(s.ring.cons)
    && s.empties == Misses(s.results) + if s.ring.cons == CDone(None) then 1 else 0
  }

  /** A can_recv that returns adds what it took to the results. */
  lemma DeliverReturn(s: Rx)
    requires RxInv(s) && Delivered(s) && RxEnabled(s, RpcMoves) && s.rpc.VPop? && s.ring.cons.CDone?
    ensures Delivered(RxStep(s, RpcMoves))
  {
    var rs := s.results + [s.ring.cons.got];
    assert rs[..|rs| - 1] == s.results;
  }

  lemma DeliverMove(s: Rx)
    requires RxInv(s) && Delivered(s) && RxEnabled(s, RpcMoves) && s.rpc.VPop? && !s.ring.cons.CDone?
    ensures Delivered(RxStep(s, RpcMoves))
  {
    var c := StepConsumer(s.ring);
    assert RxStep(s, RpcMoves).ring == c && RxStep(s, RpcMoves).results == s.results;
    if s.ring.cons.CAdvance? {
      assert s.ring.popped == Frames(s.results);
      assert c.popped == s.ring.popped + [s.ring.cons.f] && c.cons == CUnlock(s.ring.cons.f);
    } else {
      assert c.popped == s.ring.popped && InTransit(c.cons) == InTransit(s.ring.cons);
    }
  }

  /** Nothing else touches what has been taken. */
  lemma DeliverOther(s: Rx, a: RxAction)
    requires RxInv(s) && Delivered(s) && !(a.RpcMoves? && RxEnabled(s, a) && s.rpc.VPop?)
    ensures Delivered(RxStep(s, a))
  {
    var r := RxStep(s, a);
    assert r.ring.popped == s.ring.popped && r.results == s.results && r.empties == s.empties;
    assert r.ring.cons == s.ring.cons || (s.ring.cons == CIdle && r.ring.cons == CCheck);
  }

  lemma DeliverStep(s: Rx, a: RxAction)
    requires RxInv(s) && Delivered(s)
    ensures Delivered(RxStep(s, a))
  {
    if !(a.RpcMoves? && RxEnabled(s, a) && s.rpc.VPop?) {
      DeliverOther(s, a);
    } else if s.ring.cons.CDone? {
      DeliverReturn(s);
    } else {
      DeliverMove(s);
    }
  }

  /** The frames that can_recv has delivered are the frames queued, in order, each once; calls
      that delivered nothing never outnumber the frames dropped. */
  lemma {:induction false} DeliveryInOrder(slots: seq<Frame>, acts: seq<RxAction>)
    requires 0 < |slots|
    ensures var s := RxExec(InitRx(slots), acts);
            && RxInv(s) && Delivered(s)
            && Frames(s.results) + InTransit(s.ring.cons) + Queue(s.ring) == s.ring.pushed
            && Misses(s.results) <= s.dropped
  {
    SemaphoreAccounts(slots, acts);
    if acts != [] {
      DeliveryInOrder(slots, acts[..|acts| - 1]);
      DeliverStep(RxExec(InitRx(slots), acts[..|acts| - 1]), acts[|acts| - 1]);
    }
  }

  // ------------------------------------------------------ which frames are queued

  /** r is p and d merged, each in its own order. */
  ghost predicate Merged(r: seq<Frame>, p: seq<Frame>, d: seq<Frame>) {
    if r == [] then p == [] && d == []
    else
      || (p != [] && p[|p| - 1] == r[|r| - 1] && Merged(r[..|r| - 1], p[..|p| - 1], d))
      || (d != [] && d[|d| - 1] == r[|r| - 1] && Merged(r[..|r| - 1], p, d[..|d| - 1]))
  }

  lemma MergeOne(r: seq<Frame>, p: seq<Frame>, d: seq<Frame>, f: Frame)
    requires Merged(r, p, d)
    ensures Merged(r + [f], p + [f], d) && Merged(r + [f], p, d + [f])
  {
    assert (r + [f])[..|r|] == r && (p + [f])[..|p|] == p && (d + [f])[..|d|] == d;
  }

  /** The frames received and settled: queued or dropped. */
  function Settled(s: Rx): seq<Frame>
    requires Arriving(s) <= |s.received|
  {
    s.received[..|s.received| - Arriving(s)]
  }

  ghost predicate Sorted(s: Rx) {
    && Arriving(s) <= |s.received|
    && (Arriving(s) == 1 ==> s.ring.prod.f == s.received[|s.received| - 1])
    && |s.drops| == s.dropped
    && Merged(Settled(s), s.ring.pushed, s.drops)
  }

  lemma SettleOne(s: Rx)
    requires Sorted(s) && Arriving(s) == 1
    ensures s.received == Settled(s) + [s.ring.prod.f]
  {
  }

  lemma SortArrival(s: Rx, a: RxAction)
    requires RxInv(s) && Sorted(s) && RxEnabled(s, a) && a.Receive?
    ensures Sorted(RxStep(s, a))
  {
    var r := RxStep(s, a);
    assert r.received == s.received + [a.frame] && Arriving(r) == 1 && Arriving(s) == 0;
    assert Settled(r) == s.received == Settled(s);
  }

  lemma SettlingStep(s: Rx)
    requires RxInv(s) && RxEnabled(s, IrqMoves) && Arriving(s) == 1 && Arriving(RxStep(s, IrqMoves)) == 0
    ensures var r, f := RxStep(s, IrqMoves), s.ring.prod.f;
            && r.received == s.received
            && ((r.ring.pushed == s.ring.pushed + [f] && r.drops == s.drops && r.dropped == s.dropped)
                || (r.ring.pushed == s.ring.pushed && r.drops == s.drops + [f] && r.dropped == s.dropped + 1))
  {
  }

  lemma SortSettling(s: Rx)
    requires RxInv(s) && Sorted(s) && RxEnabled(s, IrqMoves) && Arriving(s) == 1 && Arriving(RxStep(s, IrqMoves)) == 0
    ensures Sorted(RxStep(s, IrqMoves))
  {
    var r := RxStep(s, IrqMoves);
    SettlingStep(s);
    SettleOne(s);
    MergeOne(Settled(s), s.ring.pushed, s.drops, s.ring.prod.f);
    assert Settled(r) == s.received;
  }

  lemma SortStep(s: Rx, a: RxAction)
    requires RxInv(s) && Sorted(s) && RxEnabled(s, a)
    ensures Sorted(RxStep(s, a))
  {
    if a.Receive? {
      SortArrival(s, a);
    } else if a.IrqMoves? && Arriving(s) == 1 && Arriving(RxStep(s, a)) == 0 {
      SortSettling(s);
    } else {
      SortSame(s, a);
    }
  }

  lemma SortSame(s: Rx, a: RxAction)
    requires RxInv(s) && RxEnabled(s, a) && !a.Receive?
    requires !(a.IrqMoves? && Arriving(s) == 1 && Arriving(RxStep(s, a)) == 0)
    ensures var r := RxStep(s, a);
            && r.received == s.received && r.ring.pushed == s.ring.pushed
            && r.drops == s.drops && r.dropped == s.dropped
            && Arriving(r) == Arriving(s) && (Arriving(s) == 1 ==> r.ring.prod.f == s.ring.prod.f)
  {
  }

  /** Over every interleaving, the frames read from the controller are those queued and those dropped,
      each in its order, but for one that is just arriving. With DeliveryInOrder: what can_recv
      delivers is what was received, without the frames that found the queue full. */
  lemma {:induction false} ReceivedIsQueuedOrDropped(slots: seq<Frame>, acts: seq<RxAction>)
    requires 0 < |slots|
    ensures Sorted(RxExec(InitRx(slots), acts))
  {
    if acts != [] {
      var s, a := RxExec(InitRx(slots), acts[..|acts| - 1]), acts[|acts| - 1];
      ReceivedIsQueuedOrDropped(slots, acts[..|acts| - 1]);
      SemaphoreAccounts(slots, acts[..|acts| - 1]);
      if RxEnabled(s, a) {
        SortStep(s, a);
      }
    }
  }

  // -------------------------------------------- when can_recv delivers nothing

  /** Every step keeps the account, from whatever state it holds in. */
  lemma RxStepKeeps(s: Rx, a: RxAction)
    requires RxInv(s) && Delivered(s)
    ensures RxInv(RxStep(s, a)) && Delivered(RxStep(s, a))
  {
    DeliverStep(s, a);
    if a.IrqMoves? && RxEnabled(s, a) {
      IrqAccounts(s);
    } else if a.RpcMoves? && RxEnabled(s, a) {
      RpcAccounts(s);
    }
  }

  /** The receive about to test the queue finds it empty exactly when no token is left over but
      those of dropped frames. */
  lemma FindsEmptyIff(s: Rx)
    requires RxInv(s) && s.rpc.VPop? && s.ring.cons.CCheck?
    ensures RxStep(s, RpcMoves).ring.cons == CDone(None) <==> s.sem + 1 + Owed(s) == s.dropped - s.empties
  {
    FullAndEmpty(s.ring.slots, s.ring.head, s.ring.tail);
  }

  /** Neither thread is inside a call. */
  predicate AtRest(s: Rx) {
    s.irq.QIdle? && s.rpc.VIdle?
  }

  /** acts drops nothing and makes some can_recv return without a frame. */
  ghost predicate Misses1(s: Rx, acts: seq<RxAction>) {
    RxExec(s, acts).dropped == s.dropped && Misses(s.results) < Misses(RxExec(s, acts).results)
  }

  lemma {:induction false} ExecKeeps(s: Rx, acts: seq<RxAction>)
    requires RxInv(s) && Delivered(s)
    ensures RxInv(RxExec(s, acts)) && Delivered(RxExec(s, acts))
  {
    if acts != [] {
      ExecKeeps(s, acts[..|acts| - 1]);
      RxStepKeeps(RxExec(s, acts[..|acts| - 1]), acts[|acts| - 1]);
    }
  }

  lemma {:induction false} ExecJoins(s: Rx, a: seq<RxAction>, b: seq<RxAction>)
    ensures RxExec(s, a + b) == RxExec(RxExec(s, a), b)
    decreases |b|
  {
    if b == [] {
      assert a + b == a;
    } else {
      var n := |b| - 1;
      assert (a + b)[..|a + b| - 1] == a + b[..n];
      ExecJoins(s, a, b[..n]);
    }
  }

  lemma ExecOne(s: Rx, a: RxAction)
    ensures RxExec(s, [a]) == RxStep(s, a)
  {
    assert [a][..0] == [];
    assert RxExec(s, []) == s;
  }

  lemma Then(s: Rx, acts: seq<RxAction>, a: RxAction) returns (acts': seq<RxAction>)
    ensures RxExec(s, acts') == RxStep(RxExec(s, acts), a)
  {
    ExecJoins(s, acts, [a]);
    ExecOne(RxExec(s, acts), a);
    acts' := acts + [a];
  }

  /** can_recv up to the test of the queue. */
  lemma RecvBegins(s: Rx) returns (acts: seq<RxAction>)
    requires RxInv(s) && AtRest(s) && 0 < s.sem
    ensures RxExec(s, acts) == s.(rpc := VPop, sem := s.sem - 1, ring := s.ring.(cons := CCheck))
  {
    ExecOne(s, CallRecv);
    assert RxStep(s, CallRecv) == s.(rpc := VWait);
    acts := Then(s, [CallRecv], RpcMoves);
  }

  /** A can_recv at rest that finds the queue empty. */
  lemma RecvEmpty(s: Rx) returns (acts: seq<RxAction>)
    requires RxInv(s) && AtRest(s) && 0 < s.sem && Queue(s.ring) == []
    ensures RxExec(s, acts) == s.(sem := s.sem - 1, empties := s.empties + 1, results := s.results + [None])
  {
    FullAndEmpty(s.ring.slots, s.ring.head, s.ring.tail);
    acts := RecvBegins(s);
    acts := Then(s, acts, RpcMoves);
    acts := Then(s, acts, RpcMoves);
    assert RxExec(s, acts).ring == s.ring;
  }

  function Taken(s: Rx): Rx
    requires Indices(|s.ring.slots|, s.ring.head, s.ring.tail) && 0 < s.sem
  {
    var f := s.ring.slots[s.ring.head];
    s.(sem := s.sem - 1, results := s.results + [Some(f)],
       ring := s.ring.(head := Next(s.ring.head, |s.ring.slots|), popped := s.ring.popped + [f]))
  }

  /** A can_recv at rest that finds a frame: it copies the frame under the lock ... */
  lemma RecvCopies(s: Rx) returns (acts: seq<RxAction>)
    requires RxInv(s) && AtRest(s) && 0 < s.sem && Queue(s.ring) != []
    ensures RxExec(s, acts)
         == s.(rpc := VPop, sem := s.sem - 1,
               ring := s.ring.(cons := CAdvance(s.ring.slots[s.ring.head]), lock := ByConsumer))
  {
    FullAndEmpty(s.ring.slots, s.ring.head, s.ring.tail);
    acts := RecvBegins(s);
    var s0 := s.(rpc := VPop, sem := s.sem - 1, ring := s.ring.(cons := CCheck));
    acts := Then(s, acts, RpcMoves);
    assert RxExec(s, acts) == s0.(ring := s.ring.(cons := CLock));
    acts := Then(s, acts, RpcMoves);
    assert RxExec(s, acts) == s0.(ring := s.ring.(cons := CCopy, lock := ByConsumer));
    acts := Then(s, acts, RpcMoves);
  }

  /** ... and returns with it. */
  lemma RecvFrame(s: Rx) returns (acts: seq<RxAction>)
    requires RxInv(s) && AtRest(s) && 0 < s.sem && Queue(s.ring) != []
    ensures RxExec(s, acts) == Taken(s)
  {
    var f, ring := s.ring.slots[s.ring.head], Taken(s).ring;
    acts := RecvCopies(s);
    var s0 := s.(rpc := VPop, sem := s.sem - 1);
    acts := Then(s, acts, RpcMoves);
    assert RxExec(s, acts) == s0.(ring := ring.(cons := CUnlock(f), lock := ByConsumer));
    acts := Then(s, acts, RpcMoves);
    assert RxExec(s, acts) == s0.(ring := ring.(cons := CDone(Some(f))));
    acts := Then(s, acts, RpcMoves);
    assert RxExec(s, acts).ring == ring;
  }

  /** With more frames dropped than empty receives, receiving until the queue is empty and once
      more gives a receive without a frame. */
  lemma {:induction false} SomeReceiveMisses(s: Rx) returns (acts: seq<RxAction>)
    requires RxInv(s) && Delivered(s) && AtRest(s) && s.empties < s.dropped
    ensures Misses1(s, acts)
    decreases |Queue(s.ring)|
  {
    FullAndEmpty(s.ring.slots, s.ring.head, s.ring.tail);
    if Queue(s.ring) == [] {
      acts := RecvEmpty(s);
      LastResult(s.results, None);
    } else {
      var first := RecvFrame(s);
      var t := Taken(s);
      ExecKeeps(s, first);
      AdvanceHead(s.ring.slots, s.ring.head, s.ring.tail);
      var rest := SomeReceiveMisses(t);
      ExecJoins(s, first, rest);
      acts := first + rest;
      LastResult(s.results, Some(s.ring.slots[s.ring.head]));
    }
  }

  lemma LastResult(rs: seq<Option<Frame>>, r: Option<Frame>)
    ensures Misses(rs + [r]) == Misses(rs) + if r.None? then 1 else 0
  {
    assert (rs + [r])[..|rs|] == rs;
  }

  /** From a state at rest, some continuation without further drops makes a can_recv return
      without a frame exactly when more frames have been dropped than receives found the queue
      empty. */
  lemma MissesIff(slots: seq<Frame>, acts: seq<RxAction>)
    requires 0 < |slots|
    requires AtRest(RxExec(InitRx(slots), acts))
    ensures var s := RxExec(InitRx(slots), acts);
            (exists more :: Misses1(s, more)) <==> Misses(s.results) < s.dropped
  {
    var s := RxExec(InitRx(slots), acts);
    DeliveryInOrder(slots, acts);
    if s.empties < s.dropped {
      var more := SomeReceiveMisses(s);
    }
    forall more | Misses1(s, more)
      ensures s.empties < s.dropped
    {
      ExecKeeps(s, more);
    }
  }

  // ------------------------------------------------------- a run with a miss

  /** One frame comes in and the callback runs to its end. */
  lemma ReceiveQueued(s: Rx, f: Frame) returns (acts: seq<RxAction>)
    requires RxInv(s) && AtRest(s) && Next(s.ring.tail, |s.ring.slots|) != s.ring.head
    ensures RxExec(s, acts)
         == s.(sem := s.sem + 1, received := s.received + [f],
               ring := s.ring.(slots := s.ring.slots[s.ring.tail := f], tail := Next(s.ring.tail, |s.ring.slots|),
                               pushed := s.ring.pushed + [f]))
  {
    var w := s.ring.slots[s.ring.tail := f];
    ExecOne(s, Receive(f));
    acts := [Receive(f)];
    var s0 := s.(irq := QPush, received := s.received + [f], ring := s.ring.(prod := PCheck(f)));
    assert RxExec(s, acts) == s0;
    acts := Then(s, acts, IrqMoves);
    assert RxExec(s, acts) == s0.(ring := s.ring.(prod := PLock(f)));
    acts := Then(s, acts, IrqMoves);
    assert RxExec(s, acts) == s0.(ring := s.ring.(prod := PCopy(f), lock := ByProducer));
    acts := Then(s, acts, IrqMoves);
    assert RxExec(s, acts) == s0.(ring := s.ring.(prod := PAdvance(f), lock := ByProducer, slots := w));
    acts := Then(s, acts, IrqMoves);
    var r := s.ring.(slots := w, tail := Next(s.ring.tail, |w|), pushed := s.ring.pushed + [f]);
    assert RxExec(s, acts) == s0.(ring := r.(prod := PUnlock(f), lock := ByProducer));
    acts := Then(s, acts, IrqMoves);
    assert RxExec(s, acts) == s0.(ring := r.(prod := PDone(f, true)));
    acts := Then(s, acts, IrqMoves);
    assert RxExec(s, acts) == s0.(irq := QPost, ring := r);
    acts := Then(s, acts, IrqMoves);
  }

  /** A frame comes in and finds the queue full; the callback posts all the same. */
  lemma ReceiveDropped(s: Rx, f: Frame) returns (acts: seq<RxAction>)
    requires RxInv(s) && AtRest(s) && Next(s.ring.tail, |s.ring.slots|) == s.ring.head
    ensures RxExec(s, acts)
         == s.(sem := s.sem + 1, received := s.received + [f], dropped := s.dropped + 1, drops := s.drops + [f])
  {
    ExecOne(s, Receive(f));
    acts := [Receive(f)];
    var s0 := s.(irq := QPush, received := s.received + [f], ring := s.ring.(prod := PCheck(f)));
    assert RxExec(s, acts) == s0;
    acts := Then(s, acts, IrqMoves);
    var s1 := s0.(ring := s.ring.(prod := PDone(f, false)), dropped := s.dropped + 1, drops := s.drops + [f]);
    assert RxExec(s, acts) == s1;
    acts := Then(s, acts, IrqMoves);
    assert RxExec(s, acts) == s1.(irq := QPost, ring := s.ring);
    acts := Then(s, acts, IrqMoves);
  }

  /** Two frames arrive at a queue with room for one, then two receives: the second returns
      without a frame. */
  lemma SecondReceiveMisses(f: Frame) returns (acts: seq<RxAction>)
    ensures RxExec(InitRx([f, f]), acts).results == [Some(f), None]
    ensures RxExec(InitRx([f, f]), acts).received == [f, f]
  {
    var s := InitRx([f, f]);
    InitRingInv([f, f]);
    assert RxExec(s, []) == s;
    var a := ReceiveQueued(s, f);
    acts := a;
    var s1 := RxExec(s, acts);
    SemaphoreAccounts([f, f], acts);
    a := ReceiveDropped(s1, f);
    ExecJoins(s, acts, a);
    acts := acts + a;
    var s2 := RxExec(s, acts);
    SemaphoreAccounts([f, f], acts);
    assert Queue(s2.ring) == [f];
    a := RecvFrame(s2);
    ExecJoins(s, acts, a);
    acts := acts + a;
    var s3 := RxExec(s, acts);
    SemaphoreAccounts([f, f], acts);
    assert Queue(s3.ring) == [];
    a := RecvEmpty(s3);
    ExecJoins(s, acts, a);
    acts := acts + a;
  }
}
