/**
 What a clash of module CanBuffers leads to: from the state right after it, the system can go on
 to overwrite a frame. So it is exactly the clashes that make a loss possible.
 */
module CanLoss {
  import opened CanInf
  import opened Ring
  import opened RingSteps
  import opened CanTransmit
  import opened CanProgress
  import opened CanBuffers
  import opened CanRest

  /** The RPC thread is between attempts and holds no lock. */
  predicate Parked(s: Tx) {
    s.rpc.RIdle? || s.rpc.RTry?
  }

  /** The callback does not hold a lock that the current attempt still has to take. */
  predicate Unblocked(s: Tx) {
    && (s.rpc.RTry? || s.rpc.RPush? ==> !s.ring.lock.ByConsumer?)
    && (s.rpc.RTry? || s.rpc.RPush? || s.rpc.RTest? || s.rpc.RLock? ==> s.txbLock != TxbIrq)
  }

  predicate Grown(a: Bits, b: Bits) {
    (a.b0 ==> b.b0) && (a.b1 ==> b.b1) && (a.b2 ==> b.b2)
  }

  /** What the RPC thread leaves as it is, at most adding flags and frames. */
  predicate RpcOnly(s: Tx, r: Tx) {
    && r.irq == s.irq && r.ring.cons == s.ring.cons
    && r.txreq == s.txreq && r.buffers == s.buffers && r.lost == s.lost
    && Grown(s.txif, r.txif)
    && Length(s) <= Length(r)
  }

  // ----------------------------------------------------- the RPC thread by itself

  lemma UnblockedIsReady(s: Tx)
    requires Inv(s) && Unblocked(s) && !s.rpc.RIdle?
    ensures RpcReady(s)
  {
    if s.rpc.RPush? {
      assert s.ring.prod.PLock? ==> s.ring.lock == Free;
    }
  }

  /** Which attempts are before which locks. */
  lemma RpcGoesOn(s: Tx)
    requires RpcReady(s) && !s.rpc.REnd?
    ensures var r := RpcStep(s);
            && (r.rpc.RTry? || r.rpc.RPush? ==> s.rpc.RTry? || s.rpc.RPush?)
            && (r.rpc.RTest? || r.rpc.RLock? ==> s.rpc.RPush? || s.rpc.RTest?)
  {
  }

  lemma RpcStaysUnblocked(s: Tx)
    requires Inv(s) && Unblocked(s) && RpcReady(s) && !s.rpc.REnd?
    requires Inv(RpcStep(s)) && RpcStep(s).irq == s.irq && RpcStep(s).ring.cons == s.ring.cons
    ensures Unblocked(RpcStep(s))
  {
    RpcGoesOn(s);
    var r := RpcStep(s);
    assert r.ring.lock.ByConsumer? <==> s.ring.lock.ByConsumer?;
    assert r.txbLock == TxbIrq <==> s.txbLock == TxbIrq;
  }

  lemma PushLength(s: Tx)
    requires RingInv(s.ring) && RpcReady(s) && s.rpc.RPush? && !s.ring.prod.PDone?
    ensures Length(RpcStep(s)) == Length(s) + One(s.ring.prod.PAdvance?)
  {
    ProducerSimulates(s.ring);
  }

  lemma NoPushLength(s: Tx)
    requires RpcReady(s) && (s.rpc.RPush? ==> s.ring.prod.PDone?)
    ensures Length(RpcStep(s)) == Length(s)
  {
    var r := RpcStep(s).ring;
    assert r.slots == s.ring.slots && r.head == s.ring.head && r.tail == s.ring.tail;
  }

  lemma RpcLength(s: Tx)
    requires Conserves(s) && RpcReady(s)
    ensures Length(s) <= Length(RpcStep(s))
    ensures s.rpc.RPush? && s.ring.prod.PAdvance? ==> Length(RpcStep(s)) == Length(s) + 1
  {
    if s.rpc.RPush? && !s.ring.prod.PDone? {
      PushLength(s);
    } else {
      NoPushLength(s);
    }
  }

  lemma RpcAlone(s: Tx)
    requires Inv(s) && RpcReady(s)
    ensures RpcOnly(s, RpcStep(s))
  {
    RpcFlags(s);
    RpcFrame(s);
    RpcLength(s);
  }

  /** The attempt is going to push its frame. */
  predicate WillPush(s: Tx) {
    s.rpc.RPush? && ((s.ring.prod.PCheck? && !Full(s)) || ProducerHasRoomLeft(s.ring.prod))
  }

  predicate ProducerHasRoomLeft(p: Producer<Frame>) {
    p.PLock? || p.PCopy? || p.PAdvance?
  }

  lemma PushGoesOn(s: Tx)
    requires Inv(s) && RpcReady(s) && WillPush(s)
    ensures !Parked(RpcStep(s))
    ensures WillPush(RpcStep(s)) || Length(RpcStep(s)) == Length(s) + 1
  {
    FullAndEmpty(s.ring.slots, s.ring.head, s.ring.tail);
    RpcLength(s);
  }

  /** The attempt runs to its end. */
  lemma {:induction false} RunAttempt(s: Tx) returns (acts: seq<Action>)
    requires Inv(s) && Unblocked(s)
    ensures var r := Exec(s, acts);
            && Inv(r) && Parked(r) && RpcOnly(s, r)
            && (WillPush(s) ==> Length(s) < Length(r))
    decreases Work(s)
  {
    if Parked(s) {
      acts := [];
      assert Exec(s, acts) == s;
    } else {
      UnblockedIsReady(s);
      RpcDrops(s);
      StepKeepsInv(s, RpcMoves);
      RpcAlone(s);
      if WillPush(s) {
        PushGoesOn(s);
      }
      var r := RpcStep(s);
      if s.rpc.REnd? {
        acts := [RpcMoves];
        ExecOne(s, RpcMoves);
      } else {
        RpcStaysUnblocked(s);
        var rest := RunAttempt(r);
        acts := [RpcMoves] + rest;
        ExecOne(s, RpcMoves);
        ExecJoins(s, [RpcMoves], rest);
      }
    }
  }

  /** From between two attempts the RPC thread pushes a frame if there is room. */
  lemma TryPushes(s: Tx) returns (acts: seq<Action>)
    requires Inv(s) && s.rpc.RTry? && Length(s) == 0
    requires !s.ring.lock.ByConsumer? && s.txbLock != TxbIrq
    ensures var r := Exec(s, acts); Inv(r) && Parked(r) && RpcOnly(s, r) && 0 < Length(r)
  {
    UnblockedIsReady(s);
    StepKeepsInv(s, RpcMoves);
    RpcAlone(s);
    RpcStaysUnblocked(s);
    ExecOne(s, RpcMoves);
    var rest := RunAttempt(RpcStep(s));
    ExecJoins(s, [RpcMoves], rest);
    acts := [RpcMoves] + rest;
  }

  /** Without a queued frame, the RPC thread can come to push one, by a new call if need be. */
  lemma Refill(s: Tx) returns (acts: seq<Action>)
    requires Inv(s) && Parked(s) && Length(s) == 0
    requires !s.ring.lock.ByConsumer? && s.txbLock != TxbIrq
    ensures var r := Exec(s, acts); Inv(r) && Parked(r) && RpcOnly(s, r) && 0 < Length(r)
  {
    if s.rpc.RTry? {
      acts := TryPushes(s);
    } else {
      var f := s.ring.slots[0];
      ExecOne(s, Call(f));
      StepKeepsInv(s, Call(f));
      var rest := TryPushes(Step(s, Call(f)));
      ExecJoins(s, [Call(f)], rest);
      acts := [Call(f)] + rest;
    }
  }

  // ---------------------------------------------------- the callback by itself

  function PopTogo(c: Consumer<Frame>): nat {
    match c
    case CIdle => 0
    case CCheck => 6
    case CLock => 5
    case CCopy => 4
    case CAdvance(_) => 3
    case CUnlock(_) => 2
    case CDone(_) => 1
  }

  /** An upper bound for the steps to the end of the callback. */
  function Togo(irq: Irq, cons: Consumer<Frame>): nat {
    match irq
    case HIdle => 0
    case HRead => 100
    case HClear(_) => 99
    case HScan(_, _, n) => 20 * n + 6
    case HPop(_, _, k) => 20 * k + 9 + PopTogo(cons)
    case HLoad(_, _, k, _) => 20 * k + 9
    case HStopLock(_, _, k) => 20 * k + 9
    case HStopSet(_, _, k) => 20 * k + 8
    case HStopUnlock(_, _, k) => 20 * k + 7
    case HRts(_) => 5
  }

  lemma PopGetsOn(s: Tx)
    requires IrqReady(s) && s.irq.HPop? && !s.ring.cons.CIdle?
    ensures Togo(IrqStep(s).irq, IrqStep(s).ring.cons) < Togo(s.irq, s.ring.cons)
  {
    if !s.ring.cons.CDone? {
      assert IrqStep(s).irq == s.irq;
    }
  }

  lemma IrqGetsOn(s: Tx)
    requires IrqOk(s) && IrqReady(s) && (s.irq.HPop? ==> !s.ring.cons.CIdle?)
    ensures Togo(IrqStep(s).irq, IrqStep(s).ring.cons) < Togo(s.irq, s.ring.cons)
  {
    if s.irq.HPop? {
      PopGetsOn(s);
    }
  }

  /** With the RPC thread parked the callback never waits. */
  lemma ParkedIsReady(s: Tx)
    requires Inv(s) && Parked(s) && !s.irq.HIdle?
    ensures IrqReady(s)
  {
    if !IrqReady(s) {
      HolderCanMove(s);
      assert false;
    }
  }

  predicate Occupied(s: Tx, i: nat) {
    i < |s.buffers| && s.buffers[i].Some?
  }

  /** A step of the callback other than clearing flags keeps the flags, and no step empties a
      buffer. */
  lemma IrqKeepsFrames(s: Tx, i: nat)
    requires i < TXB_NUM && IrqReady(s)
    ensures Occupied(s, i) ==> Occupied(IrqStep(s), i)
    ensures !s.irq.HClear? ==> IrqStep(s).txif == s.txif
    ensures Parked(s) ==> Parked(IrqStep(s))
  {
    IrqBuffers(s);
    IrqClears(s);
    IrqFlags(s);
  }

  /** The callback goes on to serve buffer i, unless it is just loading it or finds no frame for it. */
  lemma ServesOn(s: Tx, i: nat)
    requires i < TXB_NUM && IrqOk(s) && IrqReady(s) && (s.irq.HPop? ==> !s.ring.cons.CIdle?)
    requires Serves(s.irq, s.ring.cons, i)
    requires !(s.irq.HLoad? && s.irq.i == i) && !(FindsEmpty(s) && s.irq.i == i)
    ensures Serves(IrqStep(s).irq, IrqStep(s).ring.cons, i)
  {
  }

  /** The load of buffer i, which overwrites the frame that is in it. */
  lemma LoadLoses(s: Tx)
    requires IrqReady(s) && s.irq.HLoad?
    ensures var r, i := IrqStep(s), s.irq.i;
            Occupied(r, i) && Loaded(r.irq).Get(i) && (Occupied(s, i) ==> r.lost != multiset{})
  {
    var i := s.irq.i;
    if Occupied(s, i) {
      assert s.buffers[i].value in IrqStep(s).lost;
    }
  }

  /** The callback is about to find no frame for buffer i. */
  predicate Starved(s: Tx, i: nat) {
    FindsEmpty(s) && s.irq.i == i
  }

  lemma Feed(s: Tx, i: nat) returns (acts: seq<Action>)
    requires Inv(s) && Parked(s)
    ensures var r := Exec(s, acts); Inv(r) && Parked(r) && RpcOnly(s, r) && !Starved(r, i)
  {
    FullAndEmpty(s.ring.slots, s.ring.head, s.ring.tail);
    if Starved(s, i) {
      acts := Refill(s);
      var r := Exec(s, acts);
      FullAndEmpty(r.ring.slots, r.ring.head, r.ring.tail);
    } else {
      acts := [];
      assert Exec(s, acts) == s;
    }
  }

  lemma GrownGet(a: Bits, b: Bits, i: nat)
    requires Grown(a, b) && a.Get(i)
    ensures b.Get(i)
  {
  }

  /** One step of the callback on its way to load buffer i. */
  lemma StepToLoad(s: Tx, i: nat)
    requires Inv(s) && Parked(s) && i < TXB_NUM && Serves(s.irq, s.ring.cons, i) && !Starved(s, i)
    ensures var r := Step(s, IrqMoves);
            && Inv(r) && Parked(r) && r.txif == s.txif && (Occupied(s, i) ==> Occupied(r, i))
            && if s.irq.HLoad? && s.irq.i == i
               then Occupied(r, i) && (Occupied(s, i) ==> r.lost != multiset{})
               else Serves(r.irq, r.ring.cons, i) && Togo(r.irq, r.ring.cons) < Togo(s.irq, s.ring.cons)
  {
    ParkedIsReady(s);
    StepKeepsInv(s, IrqMoves);
    IrqKeepsFrames(s, i);
    if s.irq.HLoad? && s.irq.i == i {
      LoadLoses(s);
    } else {
      ServesOn(s, i);
      IrqGetsOn(s);
    }
  }

  /** The callback can come to load buffer i, with frames pushed in time. */
  lemma {:induction false} ComesToLoad(s: Tx, i: nat) returns (acts: seq<Action>)
    requires Inv(s) && Parked(s) && i < TXB_NUM && Serves(s.irq, s.ring.cons, i)
    ensures var r := Exec(s, acts);
            && Inv(r) && Parked(r) && Occupied(r, i)
            && (s.txif.Get(i) ==> r.txif.Get(i))
            && (Occupied(s, i) ==> r.lost != multiset{})
    decreases Togo(s.irq, s.ring.cons)
  {
    acts := Feed(s, i);
    var t := Exec(s, acts);
    assert Occupied(t, i) == Occupied(s, i) && t.irq == s.irq && t.ring.cons == s.ring.cons;
    if s.txif.Get(i) {
      GrownGet(s.txif, t.txif, i);
    }
    StepToLoad(t, i);
    ExecOne(t, IrqMoves);
    ExecJoins(s, acts, [IrqMoves]);
    acts := acts + [IrqMoves];
    if !(t.irq.HLoad? && t.irq.i == i) {
      var rest := ComesToLoad(Step(t, IrqMoves), i);
      ExecJoins(s, acts, rest);
      acts := acts + rest;
    }
  }

  // -------------------------------------------------------- from clash to loss

  /** A flag of buffer i that the callback has not cleared is one it will serve. */
  lemma FlagServed(s: Tx, i: nat)
    requires i < TXB_NUM && IrqReady(s) && s.txif.Get(i)
    ensures IrqStep(s).txif.Get(i) || Serves(IrqStep(s).irq, IrqStep(s).ring.cons, i)
  {
    IrqClears(s);
  }

  /** How far the callback is from serving buffer i, whose flag is set: a callback that has read
      the flags before this one was set has to end first. */
  function Rank(irq: Irq, cons: Consumer<Frame>, i: nat): nat {
    match irq
    case HIdle => 3
    case HRead => 2
    case HClear(tx) => if tx.Get(i) then 1 else 4 + Togo(irq, cons)
    case _ => 4 + Togo(irq, cons)
  }

  lemma RankDrops(s: Tx, i: nat)
    requires Inv(s) && IrqReady(s) && i < TXB_NUM && s.txif.Get(i)
    ensures var r := IrqStep(s);
            Serves(r.irq, r.ring.cons, i) || Rank(r.irq, r.ring.cons, i) < Rank(s.irq, s.ring.cons, i)
  {
    if s.irq.HRead? {
      assert s.txif.Any() && IrqStep(s).irq == HClear(s.txif);
    } else if s.irq.HClear? {
      assert IrqStep(s).irq == HScan(s.irq.tx, NONE, TXB_NUM);
    } else {
      IrqGetsOn(s);
      NotBack(s);
    }
  }

  lemma NotBack(s: Tx)
    requires IrqReady(s) && !s.irq.HRead? && !s.irq.HClear?
    ensures !IrqStep(s).irq.HRead? && !IrqStep(s).irq.HClear?
  {
  }

  lemma ServeStep(s: Tx, i: nat) returns (a: Action)
    requires Inv(s) && Parked(s) && i < TXB_NUM && Occupied(s, i) && s.txif.Get(i)
    ensures var r := Step(s, a);
            && Inv(r) && Parked(r) && Occupied(r, i)
            && (Serves(r.irq, r.ring.cons, i) || (r.txif.Get(i) && Rank(r.irq, r.ring.cons, i) < Rank(s.irq, s.ring.cons, i)))
  {
    if s.irq.HIdle? {
      a := Interrupt;
      assert Step(s, a) == s.(irq := HRead);
    } else {
      a := IrqMoves;
      ParkedIsReady(s);
      FlagServed(s, i);
      IrqKeepsFrames(s, i);
      RankDrops(s, i);
    }
    StepKeepsInv(s, a);
  }

  /** The callback can come to serve a buffer whose flag is set. */
  lemma {:induction false} ComesToServe(s: Tx, i: nat) returns (acts: seq<Action>)
    requires Inv(s) && Parked(s) && i < TXB_NUM && Occupied(s, i)
    requires s.txif.Get(i) || Serves(s.irq, s.ring.cons, i)
    ensures var r := Exec(s, acts);
            Inv(r) && Parked(r) && Occupied(r, i) && Serves(r.irq, r.ring.cons, i)
    decreases !Serves(s.irq, s.ring.cons, i), Rank(s.irq, s.ring.cons, i)
  {
    if Serves(s.irq, s.ring.cons, i) {
      acts := [];
      assert Exec(s, acts) == s;
    } else {
      var a := ServeStep(s, i);
      var rest := ComesToServe(Step(s, a), i);
      ExecOne(s, a);
      ExecJoins(s, [a], rest);
      acts := [a] + rest;
    }
  }

  /** A frame in a buffer whose flag is set can be overwritten. */
  lemma FlaggedFrameLost(s: Tx, i: nat) returns (acts: seq<Action>)
    requires Inv(s) && Parked(s) && i < TXB_NUM && Occupied(s, i) && s.txif.Get(i)
    ensures Exec(s, acts).lost != multiset{}
  {
    acts := ComesToServe(s, i);
    var t := Exec(s, acts);
    var rest := ComesToLoad(t, i);
    ExecJoins(s, acts, rest);
    acts := acts + rest;
  }

  lemma ClashedState(s: Tx)
    requires Inv(s) && BuffersOk(s) && Clash(s, RpcMoves)
    ensures var t, i := Step(s, RpcMoves), s.rpc.i;
            && i < TXB_NUM && t.rpc.RResume? && t.txif.Get(i) && t.irq == s.irq && t.ring == s.ring
            && t.buffers == s.buffers
            && (Occupied(t, i) || Serves(t.irq, t.ring.cons, i))
  {
    RpcFlags(s);
    var i := s.rpc.i;
    assert BufferOk(s, i);
    assert RpcStep(s).txif.Get(i);
  }

  /** From the state right after a clash some continuation overwrites a frame. */
  lemma ClashCanLose(s: Tx) returns (acts: seq<Action>)
    requires Inv(s) && BuffersOk(s) && Clash(s, RpcMoves)
    ensures Exec(Step(s, RpcMoves), acts).lost != multiset{}
  {
    var t, i := Step(s, RpcMoves), s.rpc.i;
    ClashedState(s);
    StepKeepsInv(s, RpcMoves);
    acts := RunAttempt(t);
    var u := Exec(t, acts);
    GrownGet(t.txif, u.txif, i);
    if !Occupied(u, i) {
      var load := ComesToLoad(u, i);
      ExecJoins(t, acts, load);
      acts := acts + load;
    }
    var rest := FlaggedFrameLost(Exec(t, acts), i);
    ExecJoins(t, acts, rest);
    acts := acts + rest;
  }

  /** The first clash of a run makes a loss possible; without a clash there is none. (With a queue
      of one slot no frame is ever taken.) */
  lemma ClashMakesLossPossible(slots: seq<Frame>, acts: seq<Action>) returns (more: seq<Action>)
    requires 1 < |slots| && NoClash(InitTx(slots), acts)
    ensures Exec(InitTx(slots), acts).lost == multiset{}
    ensures Clash(Exec(InitTx(slots), acts), RpcMoves) ==>
              Exec(InitTx(slots), acts + [RpcMoves] + more).lost != multiset{}
  {
    var s := Exec(InitTx(slots), acts);
    NoClashSound(slots, acts);
    more := [];
    if Clash(s, RpcMoves) {
      ProgressOverRuns(slots, acts);
      ConservationOfFrames(slots, acts);
      SlotsOfRun(slots, acts);
      more := ClashCanLose(s);
      ExecOne(s, RpcMoves);
      ExecJoins(InitTx(slots), acts, [RpcMoves]);
      ExecJoins(InitTx(slots), acts + [RpcMoves], more);
    }
  }
}
