/**
 Register access over SPI. The RPC thread and the interrupt thread of the CAN driver issue
 MCP2515 commands through one shared pair of buffers; spi_lock serialises them, and each
 transfer that the bus accepts is completed by one callback that posts the bus semaphore.
 */
module SpiBus {
  type Byte = bv8

  const CMD_WRITE: Byte := 0x02
  const CMD_READ: Byte := 0x03
  const CMD_BIT_MODIFY: Byte := 0x05

  datatype Cmd =
    | Read(reg: Byte, count: nat)            // mcp2515_read_reg is the case count == 1
    | Write(reg: Byte, bytes: seq<Byte>)     // mcp2515_write_reg is the case of one byte
    | BitModify(reg: Byte, mask: Byte, val: Byte)

  // ------------------------------------------------- commands as operations

  datatype Effect = Effect(regs: seq<Byte>, reply: seq<Byte>)

  /** Addresses count up and wrap at the end of the register file. */
  function At(regs: seq<Byte>, a: nat): nat
    requires 0 < |regs|
  {
    a % |regs|
  }

  function Store(regs: seq<Byte>, a: nat, bytes: seq<Byte>): (r: seq<Byte>)
    requires 0 < |regs|
    ensures |r| == |regs|
    decreases |bytes|
  {
    if bytes == [] then regs else Store(regs[At(regs, a) := bytes[0]], a + 1, bytes[1..])
  }

  function Fetch(regs: seq<Byte>, a: nat, count: nat): (r: seq<Byte>)
    requires 0 < |regs|
    ensures |r| == count
    decreases count
  {
    if count == 0 then [] else [regs[At(regs, a)]] + Fetch(regs, a + 1, count - 1)
  }

  function Modify(old': Byte, mask: Byte, val: Byte): Byte {
    (old' & !mask) | (val & mask)
  }

  /** What a command means on the register file. */
  function Apply(regs: seq<Byte>, c: Cmd): (e: Effect)
    requires 0 < |regs|
    ensures |e.regs| == |regs| && |e.reply| == ReplyLength(c)
  {
    match c
    case Read(reg, count) => Effect(regs, Fetch(regs, reg as nat, count))
    case Write(reg, bytes) => Effect(Store(regs, reg as nat, bytes), [])
    case BitModify(reg, mask, val) =>
      var a := At(regs, reg as nat);
      Effect(regs[a := Modify(regs[a], mask, val)], [])
  }

  // ---------------------------------------- what the operations do, bit by bit

  function One(k: nat): Byte {
    if k < 8 then (1 as Byte) << k else 0
  }

  predicate Meets(b: Byte, x: Byte) {
    b & x != 0
  }

  /** Bit k of a byte. */
  predicate Bit(b: Byte, k: nat) {
    Meets(b, One(k))
  }

  lemma OneHot(k: bv4)
    requires k < 8
    ensures var x := (1 as Byte) << k; x != 0 && x & (x - 1) == 0
  {
  }

  lemma RawModify(o: Byte, m: Byte, v: Byte, x: Byte)
    requires x != 0 && x & (x - 1) == 0
    ensures Meets(Modify(o, m, v), x) == (if Meets(m, x) then Meets(v, x) else Meets(o, x))
  {
  }

  /** Where the mask has a 1 the value is taken, elsewhere the old bit stays. */
  lemma ModifyBits(o: Byte, mask: Byte, val: Byte, k: nat)
    requires k < 8
    ensures Bit(Modify(o, mask, val), k) == (if Bit(mask, k) then Bit(val, k) else Bit(o, k))
  {
    OneHot(k as bv4);
    RawModify(o, mask, val, One(k));
  }

  /** The i-th register from a on. */
  function Place(a: nat, i: nat, size: nat): nat
    requires 0 < size
  {
    (a + i) % size
  }

  /** Register j is none of the n registers from a on. */
  ghost predicate Untouched(a: nat, n: nat, j: nat, size: nat)
    requires 0 < size
  {
    forall i: nat | i < n :: Place(a, i, size) != j
  }

  /** What one command does: registers before and after it, and its reply. Of the bytes of a write
      that goes round the register file, the last that comes to a register stays. */
  ghost predicate Does(before: seq<Byte>, c: Cmd, after: seq<Byte>, reply: seq<Byte>)
    requires 0 < |before|
  {
    && |after| == |before|
    && match c
       case Read(reg, count) =>
         && after == before && |reply| == count
         && forall i: nat | i < count :: reply[i] == before[Place(reg as nat, i, |before|)]
       case Write(reg, bytes) =>
         && reply == []
         && (forall i: nat | i < |bytes| <= i + |before| :: after[Place(reg as nat, i, |before|)] == bytes[i])
         && forall j: nat | j < |before| && Untouched(reg as nat, |bytes|, j, |before|) :: after[j] == before[j]
       case BitModify(reg, mask, val) =>
         var a := Place(reg as nat, 0, |before|);
         && reply == []
         && (forall k: nat | k < 8 :: Bit(after[a], k) == if Bit(mask, k) then Bit(val, k) else Bit(before[a], k))
         && forall j: nat | j < |before| && j != a :: after[j] == before[j]
  }

  lemma {:induction false} FetchAt(regs: seq<Byte>, a: nat, count: nat, i: nat)
    requires 0 < |regs| && i < count
    ensures Fetch(regs, a, count)[i] == regs[Place(a, i, |regs|)]
    decreases count
  {
    if i > 0 {
      FetchAt(regs, a + 1, count - 1, i - 1);
    }
  }

  lemma NextUntouched(a: nat, n: nat, j: nat, size: nat)
    requires 0 < size && 0 < n && Untouched(a, n, j, size)
    ensures Untouched(a + 1, n - 1, j, size) && a % size != j
  {
    forall i: nat {:trigger Place(a + 1, i, size)} | i < n - 1
      ensures Place(a + 1, i, size) != j
    {
      assert Place(a, i + 1, size) != j;
    }
    assert Place(a, 0, size) != j;
  }

  lemma {:induction false} StoreElsewhere(regs: seq<Byte>, a: nat, bytes: seq<Byte>, j: nat)
    requires 0 < |regs| && j < |regs| && Untouched(a, |bytes|, j, |regs|)
    ensures Store(regs, a, bytes)[j] == regs[j]
    decreases |bytes|
  {
    if bytes != [] {
      NextUntouched(a, |bytes|, j, |regs|);
      StoreElsewhere(regs[At(regs, a) := bytes[0]], a + 1, bytes[1..], j);
    }
  }

  /** Fewer steps than there are registers do not lead back to the same one. */
  lemma NotBack(a: nat, n: nat, size: nat)
    requires 0 < n <= size
    ensures Untouched(a + 1, n - 1, a % size, size)
  {
    forall i: nat {:trigger Place(a + 1, i, size)} | i < n - 1
      ensures Place(a + 1, i, size) != a % size
    {
      ShortStep(a, i + 1, size);
    }
  }

  lemma ShortStep(a: nat, d: nat, size: nat)
    requires 0 < d < size
    ensures (a + d) % size != a % size
  {
    var q, r := a / size, a % size;
    if r + d < size {
      Remainder(a + d, q, r + d, size);
    } else {
      assert (q + 1) * size == q * size + size;
      Remainder(a + d, q + 1, r + d - size, size);
    }
  }

  lemma Remainder(x: nat, q: nat, r: nat, size: nat)
    requires r < size && x == q * size + r
    ensures x % size == r
  {
    var p := x / size;
    assert x == p * size + x % size;
    if p < q { Grows(p + 1, q, size); }
    if q < p { Grows(q + 1, p, size); }
  }

  lemma Grows(a: nat, b: nat, size: nat)
    requires a <= b
    ensures a * size <= b * size
  {
  }

  lemma {:induction false} StoreAt(regs: seq<Byte>, a: nat, bytes: seq<Byte>, i: nat)
    requires 0 < |regs| && i < |bytes| <= i + |regs|
    ensures Store(regs, a, bytes)[Place(a, i, |regs|)] == bytes[i]
    decreases |bytes|
  {
    var next := regs[At(regs, a) := bytes[0]];
    if i > 0 {
      StoreAt(next, a + 1, bytes[1..], i - 1);
      assert Place(a + 1, i - 1, |regs|) == Place(a, i, |regs|);
    } else {
      NotBack(a, |bytes|, |regs|);
      StoreElsewhere(next, a + 1, bytes[1..], At(regs, a));
    }
  }

  lemma ReadDoes(regs: seq<Byte>, reg: Byte, count: nat)
    requires 0 < |regs|
    ensures Does(regs, Read(reg, count), regs, Fetch(regs, reg as nat, count))
  {
    var reply := Fetch(regs, reg as nat, count);
    forall i: nat | i < count
      ensures reply[i] == regs[Place(reg as nat, i, |regs|)]
    {
      FetchAt(regs, reg as nat, count, i);
    }
  }

  lemma WriteDoes(regs: seq<Byte>, reg: Byte, bytes: seq<Byte>)
    requires 0 < |regs|
    ensures Does(regs, Write(reg, bytes), Store(regs, reg as nat, bytes), [])
  {
    var after := Store(regs, reg as nat, bytes);
    forall i: nat | i < |bytes| <= i + |regs|
      ensures after[Place(reg as nat, i, |regs|)] == bytes[i]
    {
      StoreAt(regs, reg as nat, bytes, i);
    }
    forall j: nat | j < |regs| && Untouched(reg as nat, |bytes|, j, |regs|)
      ensures after[j] == regs[j]
    {
      StoreElsewhere(regs, reg as nat, bytes, j);
    }
  }

  lemma ModifyDoes(regs: seq<Byte>, reg: Byte, mask: Byte, val: Byte)
    requires 0 < |regs|
    ensures Does(regs, BitModify(reg, mask, val), Apply(regs, BitModify(reg, mask, val)).regs, [])
  {
    var a := Place(reg as nat, 0, |regs|);
    var m := Modify(regs[a], mask, val);
    assert Apply(regs, BitModify(reg, mask, val)).regs == regs[a := m];
    forall k: nat | k < 8
      ensures Bit(m, k) == if Bit(mask, k) then Bit(val, k) else Bit(regs[a], k)
    {
      ModifyBits(regs[a], mask, val, k);
    }
  }

  /** The operations do what the commands are for. */
  lemma ApplyDoes(regs: seq<Byte>, c: Cmd)
    requires 0 < |regs|
    ensures Does(regs, c, Apply(regs, c).regs, Apply(regs, c).reply)
  {
    match c
    case Read(reg, count) => ReadDoes(regs, reg, count);
    case Write(reg, bytes) => WriteDoes(regs, reg, bytes);
    case BitModify(reg, mask, val) => ModifyDoes(regs, reg, mask, val);
  }

  /** Reading back what was written, of up to as many bytes as there are registers. */
  lemma ReadAfterWrite(regs: seq<Byte>, reg: Byte, bytes: seq<Byte>)
    requires 0 < |regs| && |bytes| <= |regs|
    ensures Apply(Apply(regs, Write(reg, bytes)).regs, Read(reg, |bytes|)).reply == bytes
  {
    var after := Apply(regs, Write(reg, bytes)).regs;
    ApplyDoes(regs, Write(reg, bytes));
    ApplyDoes(after, Read(reg, |bytes|));
  }

  // ------------------------------------------------ commands as SPI transfers

  function ReplyLength(c: Cmd): nat {
    if c.Read? then c.count else 0
  }

  /** The bytes a command puts into the transmit buffer. */
  function Encode(c: Cmd): seq<Byte> {
    match c
    case Read(reg, _) => [CMD_READ, reg]
    case Write(reg, bytes) => [CMD_WRITE, reg] + bytes
    case BitModify(reg, mask, val) => [CMD_BIT_MODIFY, reg, mask, val]
  }

  /** What the controller does with the bytes it is sent: its instructions are 0x03 to read, 0x02 to
      write and 0x05 to modify bits. */
  function Perform(regs: seq<Byte>, tx: seq<Byte>, rcount: nat): (e: Effect)
    requires 0 < |regs|
    ensures |e.regs| == |regs| && |e.reply| == rcount
  {
    var idle := Effect(regs, seq(rcount, _ => 0));
    if |tx| < 2 then idle
    else if tx[0] == 0x03 then Effect(regs, Fetch(regs, tx[1] as nat, rcount))
    else if tx[0] == 0x02 then Effect(Store(regs, tx[1] as nat, tx[2..]), idle.reply)
    else if tx[0] == 0x05 && |tx| == 4 then
      var a := At(regs, tx[1] as nat);
      Effect(regs[a := Modify(regs[a], tx[2], tx[3])], idle.reply)
    else idle
  }

  /** The controller decodes every command to the operation that was meant. */
  lemma PerformApplies(regs: seq<Byte>, c: Cmd)
    requires 0 < |regs|
    ensures Perform(regs, Encode(c), ReplyLength(c)) == Apply(regs, c)
  {
    match c
    case Write(_, bytes) => assert Encode(c)[2..] == bytes;
    case _ =>
  }

  // ------------------------------------------------------------- the system

  datatype Thread = RpcThread | IrqThread

  /** Where a thread stands in a command. */
  datatype Pc =
    | TIdle
    | TLock(c: Cmd)
    | TFill(c: Cmd, k: nat)                                // k bytes of the command written
    | TXfer(c: Cmd)
    | TWait(c: Cmd)                                        // bus_sem_wait
    | TCopy(c: Cmd, ok: bool, k: nat, got: seq<Byte>)      // k bytes of the reply read
    | TUnlock(c: Cmd, ok: bool, got: seq<Byte>)

  datatype Transfer = NoTransfer | Pending(wcount: nat, rcount: nat)

  /** The outcome of a command: `ok` unless the bus refused the transfer. */
  datatype Result = Result(thread: Thread, c: Cmd, ok: bool, got: seq<Byte>)

  /** What has happened to the registers: commands carried out, and changes the controller made
      by itself, such as setting TXnIF and clearing TXREQ when a frame has been sent. */
  datatype Event = Command(c: Cmd, reply: seq<Byte>) | Changed(a: nat, v: Byte)

  datatype Bus = Bus(
    rpc: Pc,
    irq: Pc,
    lock: set<Thread>,        // the holder of spi_lock, if any
    txbuf: seq<Byte>,
    rxbuf: seq<Byte>,
    transfer: Transfer,
    sem: nat,                 // bus_sem, after spi__init has taken the initial token
    regs: seq<Byte>,
    events: seq<Event>,       // everything that changed or read the registers, in order
    results: seq<Result>)     // in the order the commands gave up the lock

  datatype Action =
    | Issue(t: Thread, c: Cmd)
    | Moves(t: Thread)
    | Refuse(t: Thread)       // spi_xfer returns an error
    | Complete                // the controller finishes, the callback posts bus_sem
    | Change(a: nat, v: Byte) // the controller changes a register by itself

  function PcOf(s: Bus, t: Thread): Pc {
    if t.RpcThread? then s.rpc else s.irq
  }

  function SetPc(s: Bus, t: Thread, pc: Pc): Bus {
    if t.RpcThread? then s.(rpc := pc) else s.(irq := pc)
  }

  /** Commands fit the shared buffers. */
  predicate Fits(s: Bus, c: Cmd) {
    |Encode(c)| <= |s.txbuf| && |Encode(c)| + ReplyLength(c) <= |s.rxbuf|
  }

  predicate Enabled(s: Bus, a: Action) {
    match a
    case Issue(t, c) => PcOf(s, t) == TIdle && Fits(s, c)
    case Refuse(t) => PcOf(s, t).TXfer?
    case Complete => s.transfer.Pending? && s.transfer.wcount <= |s.txbuf|
                     && s.transfer.wcount + s.transfer.rcount <= |s.rxbuf| && 0 < |s.regs|
    case Change(_, _) => 0 < |s.regs|
    case Moves(t) =>
      match PcOf(s, t)
      case TIdle => false
      case TLock(_) => s.lock == {}
      case TFill(c, k) => k <= |Encode(c)| <= |s.txbuf|
      case TXfer(_) => s.transfer == NoTransfer
      case TWait(_) => 0 < s.sem
      case TCopy(c, _, k, _) => k <= ReplyLength(c) && |Encode(c)| + ReplyLength(c) <= |s.rxbuf|
      case TUnlock(_, _, _) => true
  }

  function Move(s: Bus, t: Thread): Bus
    requires Enabled(s, Moves(t))
  {
    match PcOf(s, t)
    case TLock(c) => SetPc(s, t, TFill(c, 0)).(lock := {t})
    case TFill(c, k) =>
      if k == |Encode(c)| then SetPc(s, t, TXfer(c))
      else SetPc(s, t, TFill(c, k + 1)).(txbuf := s.txbuf[k := Encode(c)[k]])
    case TXfer(c) => SetPc(s, t, TWait(c)).(transfer := Pending(|Encode(c)|, ReplyLength(c)))
    case TWait(c) => SetPc(s, t, TCopy(c, true, 0, [])).(sem := s.sem - 1)
    case TCopy(c, ok, k, got) =>
      if k == ReplyLength(c) then SetPc(s, t, TUnlock(c, ok, got))
      else SetPc(s, t, TCopy(c, ok, k + 1, got + [s.rxbuf[|Encode(c)| + k]]))
    case TUnlock(c, ok, got) =>
      SetPc(s, t, TIdle).(lock := {}, results := s.results + [Result(t, c, ok, got)])
  }

  function Overwrite(b: seq<Byte>, at: nat, with': seq<Byte>): (r: seq<Byte>)
    requires at + |with'| <= |b|
    ensures |r| == |b| && r[at..at + |with'|] == with'
  {
    b[..at] + with' + b[at + |with'|..]
  }

  /** The command a transfer is made for: that of the thread which waits for it. */
  function Carried(s: Bus, reply: seq<Byte>): seq<Event> {
    if s.rpc.TWait? then [Command(s.rpc.c, reply)]
    else if s.irq.TWait? then [Command(s.irq.c, reply)]
    else []
  }

  function Step(s: Bus, a: Action): Bus {
    if !Enabled(s, a) then s else
    match a
    case Issue(t, c) => SetPc(s, t, TLock(c))
    case Moves(t) => Move(s, t)
    case Refuse(t) => SetPc(s, t, TCopy(PcOf(s, t).c, false, 0, []))
    case Complete =>
      var e := Perform(s.regs, s.txbuf[..s.transfer.wcount], s.transfer.rcount);
      s.(regs := e.regs, rxbuf := Overwrite(s.rxbuf, s.transfer.wcount, e.reply),
         transfer := NoTransfer, sem := s.sem + 1, events := s.events + Carried(s, e.reply))
    case Change(a, v) =>
      s.(regs := s.regs[At(s.regs, a) := v], events := s.events + [Changed(a, v)])
  }

  function Exec(s: Bus, acts: seq<Action>): Bus {
    if acts == [] then s else Step(Exec(s, acts[..|acts| - 1]), acts[|acts| - 1])
  }

  function InitBus(txbuf: seq<Byte>, rxbuf: seq<Byte>, regs: seq<Byte>): Bus {
    Bus(TIdle, TIdle, {}, txbuf, rxbuf, NoTransfer, 0, regs, [], [])
  }

  // ---------------------------------------------------------- linearization

  /** The register file after the events have happened one after the other. */
  function Replay(regs: seq<Byte>, es: seq<Event>): (r: seq<Byte>)
    requires 0 < |regs|
    ensures |r| == |regs|
  {
    if es == [] then regs
    else
      var before := Replay(regs, es[..|es| - 1]);
      match es[|es| - 1]
      case Command(c, _) => Apply(before, c).regs
      case Changed(a, v) => before[At(before, a) := v]
  }

  /** Each command got the reply it gets when the events happen one after the other. */
  predicate OwnReplies(regs: seq<Byte>, es: seq<Event>)
    requires 0 < |regs|
  {
    if es == [] then true
    else
      var before := Replay(regs, es[..|es| - 1]);
      && OwnReplies(regs, es[..|es| - 1])
      && match es[|es| - 1]
         case Command(c, reply) => reply == Apply(before, c).reply
         case Changed(_, _) => true
  }

  /** The commands among the events, with their replies. */
  function Commands(es: seq<Event>): seq<Event> {
    if es == [] then []
    else Commands(es[..|es| - 1]) + if es[|es| - 1].Command? then [es[|es| - 1]] else []
  }

  /** The commands that have finished and were not refused, with the bytes they returned. */
  function Finished(rs: seq<Result>): seq<Event> {
    if rs == [] then []
    else Finished(rs[..|rs| - 1]) + if rs[|rs| - 1].ok then [Command(rs[|rs| - 1].c, rs[|rs| - 1].got)] else []
  }

  /** The reply to c in the receive buffer. */
  function ReplyIn(s: Bus, c: Cmd): seq<Byte>
    requires Fits(s, c)
  {
    s.rxbuf[|Encode(c)|..|Encode(c)| + ReplyLength(c)]
  }

  /** The command that has been carried out and not yet finished. */
  function InHand(s: Bus, pc: Pc): seq<Event> {
    match pc
    case TWait(c) => if s.transfer == NoTransfer && Fits(s, c) then [Command(c, ReplyIn(s, c))] else []
    case TCopy(c, ok, _, _) => if ok && Fits(s, c) then [Command(c, ReplyIn(s, c))] else []
    case TUnlock(c, ok, got) => if ok then [Command(c, got)] else []
    case _ => []
  }

  /** What the holder of the lock may rely on. */
  predicate HolderOk(s: Bus, pc: Pc) {
    match pc
    case TFill(c, k) =>
      Fits(s, c) && k <= |Encode(c)| && s.txbuf[..k] == Encode(c)[..k]
      && s.transfer == NoTransfer && s.sem == 0
    case TXfer(c) =>
      Fits(s, c) && s.txbuf[..|Encode(c)|] == Encode(c)
      && s.transfer == NoTransfer && s.sem == 0
    case TWait(c) =>
      Fits(s, c) &&
      if s.transfer.Pending?
      then s.transfer == Pending(|Encode(c)|, ReplyLength(c)) && s.sem == 0 && s.txbuf[..|Encode(c)|] == Encode(c)
      else s.sem == 1
    case TCopy(c, ok, k, got) =>
      Fits(s, c) && s.transfer == NoTransfer && s.sem == 0 && k <= ReplyLength(c)
      && (ok ==> got == ReplyIn(s, c)[..k])
    case TUnlock(c, ok, got) => s.transfer == NoTransfer && s.sem == 0
    case _ => false
  }

  predicate Outside(s: Bus, pc: Pc) {
    pc.TIdle? || (pc.TLock? && Fits(s, pc.c))
  }

  /** The commands carried out are those finished and, at most, one in hand. */
  predicate Matched(s: Bus, pc: Pc) {
    Commands(s.events) == Finished(s.results) + InHand(s, pc)
  }

  predicate ThreadsOk(s: Bus) {
    && (s.lock == {} || s.lock == {RpcThread} || s.lock == {IrqThread})
    && (if RpcThread in s.lock then HolderOk(s, s.rpc) && Matched(s, s.rpc) else Outside(s, s.rpc))
    && (if IrqThread in s.lock then HolderOk(s, s.irq) && Matched(s, s.irq) else Outside(s, s.irq))
    && (s.lock == {} ==> s.transfer == NoTransfer && s.sem == 0 && Matched(s, TIdle))
  }

  predicate RegistersOk(s: Bus, regs0: seq<Byte>)
    requires 0 < |regs0|
  {
    s.regs == Replay(regs0, s.events) && OwnReplies(regs0, s.events)
  }

  lemma AcquireKeeps(s: Bus, t: Thread)
    requires ThreadsOk(s) && Enabled(s, Moves(t)) && PcOf(s, t).TLock?
    ensures ThreadsOk(Step(s, Moves(t)))
  {
  }

  lemma FillKeeps(s: Bus, t: Thread)
    requires ThreadsOk(s) && Enabled(s, Moves(t)) && PcOf(s, t).TFill?
    ensures ThreadsOk(Step(s, Moves(t)))
  {
    var pc := PcOf(s, t);
    if pc.k < |Encode(pc.c)| {
      var b := s.txbuf[pc.k := Encode(pc.c)[pc.k]];
      assert b[..pc.k + 1] == s.txbuf[..pc.k] + [Encode(pc.c)[pc.k]];
      assert Encode(pc.c)[..pc.k + 1] == Encode(pc.c)[..pc.k] + [Encode(pc.c)[pc.k]];
    } else {
      assert Encode(pc.c)[..pc.k] == Encode(pc.c);
    }
  }

  lemma TransferKeeps(s: Bus, t: Thread)
    requires ThreadsOk(s) && Enabled(s, Moves(t)) && (PcOf(s, t).TXfer? || PcOf(s, t).TWait?)
    ensures ThreadsOk(Step(s, Moves(t)))
  {
  }

  /** The reply is read from the buffer before anyone else can write to it. */
  lemma CopyKeeps(s: Bus, t: Thread)
    requires ThreadsOk(s) && Enabled(s, Moves(t)) && PcOf(s, t).TCopy?
    ensures ThreadsOk(Step(s, Moves(t)))
  {
    var pc := PcOf(s, t);
    var reply := ReplyIn(s, pc.c);
    if pc.k < ReplyLength(pc.c) {
      assert reply[pc.k] == s.rxbuf[|Encode(pc.c)| + pc.k];
      assert reply[..pc.k + 1] == reply[..pc.k] + [reply[pc.k]];
    } else {
      assert reply[..pc.k] == reply;
    }
  }

  lemma ReleaseKeeps(s: Bus, t: Thread)
    requires ThreadsOk(s) && Enabled(s, Moves(t)) && PcOf(s, t).TUnlock?
    ensures ThreadsOk(Step(s, Moves(t)))
  {
    var pc := PcOf(s, t);
    var rs := s.results + [Result(t, pc.c, pc.ok, pc.got)];
    assert rs[..|rs| - 1] == s.results;
    assert Finished(rs) == Finished(s.results) + InHand(s, pc);
  }

  lemma IssueKeeps(s: Bus, a: Action)
    requires ThreadsOk(s) && Enabled(s, a) && (a.Issue? || a.Refuse?)
    ensures ThreadsOk(Step(s, a))
  {
  }

  function Waiting(s: Bus): Pc {
    if RpcThread in s.lock then s.rpc else s.irq
  }

  /** The one transfer in progress is the waiting thread's, and carries out its command. */
  lemma CompleteCarriesOut(s: Bus)
    requires ThreadsOk(s) && Enabled(s, Complete)
    ensures Waiting(s).TWait? && Fits(s, Waiting(s).c) && 0 < |s.regs|
    ensures var c := Waiting(s).c;
            var e := Apply(s.regs, c);
            Step(s, Complete)
            == s.(regs := e.regs, rxbuf := Overwrite(s.rxbuf, |Encode(c)|, e.reply), transfer := NoTransfer,
                  sem := 1, events := s.events + [Command(c, e.reply)])
  {
    assert Waiting(s).TWait?;
    PerformApplies(s.regs, Waiting(s).c);
  }

  lemma CompleteThreads(s: Bus)
    requires ThreadsOk(s) && Enabled(s, Complete)
    ensures ThreadsOk(Step(s, Complete))
  {
    CompleteCarriesOut(s);
    var pc := Waiting(s);
    var reply := Apply(s.regs, pc.c).reply;
    var es := s.events + [Command(pc.c, reply)];
    assert es[..|es| - 1] == s.events;
    assert InHand(s, pc) == [];
    assert Commands(es) == Finished(s.results) + [Command(pc.c, reply)];
    assert ReplyIn(Step(s, Complete), pc.c) == reply;
  }

  lemma CompleteKeeps(s: Bus, regs0: seq<Byte>)
    requires 0 < |regs0| && RegistersOk(s, regs0) && ThreadsOk(s) && Enabled(s, Complete)
    ensures ThreadsOk(Step(s, Complete)) && RegistersOk(Step(s, Complete), regs0)
  {
    CompleteCarriesOut(s);
    CompleteThreads(s);
    var c := Waiting(s).c;
    var es := s.events + [Command(c, Apply(s.regs, c).reply)];
    assert es[..|es| - 1] == s.events;
  }

  lemma ChangeThreads(s: Bus, a: nat, v: Byte)
    requires ThreadsOk(s) && 0 < |s.regs|
    ensures ThreadsOk(Step(s, Change(a, v)))
  {
    var es := s.events + [Changed(a, v)];
    var r := Step(s, Change(a, v));
    assert es[..|es| - 1] == s.events;
    assert Commands(es) == Commands(s.events);
    assert r == s.(regs := r.regs, events := es);
    assert InHand(r, s.rpc) == InHand(s, s.rpc) && InHand(r, s.irq) == InHand(s, s.irq);
  }

  /** What the controller changes by itself is one event in the order, at any time. */
  lemma ChangeKeeps(s: Bus, a: nat, v: Byte, regs0: seq<Byte>)
    requires 0 < |regs0| && RegistersOk(s, regs0) && ThreadsOk(s)
    ensures ThreadsOk(Step(s, Change(a, v))) && RegistersOk(Step(s, Change(a, v)), regs0)
  {
    var es := s.events + [Changed(a, v)];
    assert es[..|es| - 1] == s.events;
    ChangeThreads(s, a, v);
  }

  /** Each step of each thread and of the controller keeps the invariant. */
  lemma StepKeeps(s: Bus, a: Action, regs0: seq<Byte>)
    requires 0 < |regs0| && RegistersOk(s, regs0) && ThreadsOk(s)
    ensures RegistersOk(Step(s, a), regs0) && ThreadsOk(Step(s, a))
  {
    if Enabled(s, a) {
      match a {
        case Complete => CompleteKeeps(s, regs0);
        case Change(r, v) => ChangeKeeps(s, r, v, regs0);
        case Moves(t) =>
          match PcOf(s, t) {
            case TLock(_) => AcquireKeeps(s, t);
            case TFill(_, _) => FillKeeps(s, t);
            case TXfer(_) => TransferKeeps(s, t);
            case TWait(_) => TransferKeeps(s, t);
            case TCopy(_, _, _, _) => CopyKeeps(s, t);
            case TUnlock(_, _, _) => ReleaseKeeps(s, t);
            case TIdle =>
          }
        case _ => IssueKeeps(s, a);
      }
    }
  }

  /** Event number p of the order does what its command is for, to the registers that the events
      before it left; a change by the controller sets one register. */
  ghost predicate EventDoes(regs: seq<Byte>, es: seq<Event>, p: nat)
    requires 0 < |regs| && p < |es|
  {
    var before, after := Replay(regs, es[..p]), Replay(regs, es[..p + 1]);
    match es[p]
    case Command(c, reply) => Does(before, c, after, reply)
    case Changed(a, v) =>
      && after[Place(a, 0, |before|)] == v
      && forall j: nat | j < |before| && j != Place(a, 0, |before|) :: after[j] == before[j]
  }

  lemma {:induction false} EventsDo(regs: seq<Byte>, es: seq<Event>, p: nat)
    requires 0 < |regs| && p < |es| && OwnReplies(regs, es)
    ensures EventDoes(regs, es, p)
    decreases |es|
  {
    var n := |es| - 1;
    if p < n {
      EventsDo(regs, es[..n], p);
      assert es[..n][..p] == es[..p] && es[..n][..p + 1] == es[..p + 1];
    } else {
      assert es[..p + 1] == es && es[..p] == es[..n];
      if es[p].Command? {
        ApplyDoes(Replay(regs, es[..p]), es[p].c);
      }
    }
  }

  /** Atomicity: in every interleaving of the two threads and the controller there is one order of
      commands and of the controller's own changes such that the registers are always what
      that order leaves, every command does what it is for and gets the reply it has there, and the commands that have
      finished are those of the order, with their replies and in the order in which they released
      the lock; only the command of the lock's holder may still be missing from them. */
  lemma {:induction false} CommandsAreAtomic(txbuf: seq<Byte>, rxbuf: seq<Byte>, regs0: seq<Byte>, acts: seq<Action>)
    requires 0 < |regs0|
    ensures var s := Exec(InitBus(txbuf, rxbuf, regs0), acts);
            && RegistersOk(s, regs0) && ThreadsOk(s)
            && (forall p: nat | p < |s.events| :: EventDoes(regs0, s.events, p))
            && Finished(s.results) <= Commands(s.events)
            && |Commands(s.events)| <= |Finished(s.results)| + 1
            && (s.lock == {} ==> Commands(s.events) == Finished(s.results))
  {
    if acts != [] {
      CommandsAreAtomic(txbuf, rxbuf, regs0, acts[..|acts| - 1]);
      StepKeeps(Exec(InitBus(txbuf, rxbuf, regs0), acts[..|acts| - 1]), acts[|acts| - 1], regs0);
    }
    var es := Exec(InitBus(txbuf, rxbuf, regs0), acts).events;
    forall p: nat | p < |es|
      ensures EventDoes(regs0, es, p)
    {
      EventsDo(regs0, es, p);
    }
  }
}
