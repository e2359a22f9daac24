/**
 Transmit priorities for frames that clients put into a transmit buffer of their choice: the
 smaller identifier must leave first, so it needs the larger TXP value.
 */
module CanPriority {
  const TXB_NUM: nat := 3

  /** The identifier cache and what the controller has; identifier 0 marks a free slot. */
  datatype Cache = Cache(
    ids: seq<nat>,       // txb_cache[i].canid
    pending: seq<nat>,   // the identifier of the frame in buffer i
    txp: seq<nat>)       // the TXP field of buffer i

  predicate IsCache(c: Cache) {
    |c.ids| == TXB_NUM && |c.pending| == TXB_NUM && |c.txp| == TXB_NUM
  }

  function Beaten(ids: seq<nat>, k: nat, m: nat): nat
    requires |ids| == TXB_NUM && k < TXB_NUM && m < TXB_NUM
  {
    if ids[k] < ids[m] then 1 else 0
  }

  /** How many cached identifiers are greater than the one in slot k. */
  function Greater(ids: seq<nat>, k: nat): (n: nat)
    requires |ids| == TXB_NUM && k < TXB_NUM
    ensures n <= 2
  {
    Beaten(ids, k, 0) + Beaten(ids, k, 1) + Beaten(ids, k, 2)
  }

  function InitCache(): Cache {
    Cache([0, 0, 0], [0, 0, 0], [0, 0, 0])
  }

  function Ranked(c: Cache, idx: nat, id: nat): Cache
    requires IsCache(c) && idx < TXB_NUM
  {
    var ids := c.ids[idx := id];
    Cache(ids, c.pending[idx := id],
          seq(TXB_NUM, i requires 0 <= i < TXB_NUM => if ids[i] != 0 || i == idx then Greater(ids, i) else c.txp[i]))
  }

  /** can_sendto on an idle buffer: if the cache slot is taken, get_frame_priority returns -1,
      which is 3 in the two bits of frame.prio. */
  function SendTo(c: Cache, idx: nat, id: nat): Cache
    requires IsCache(c) && idx < TXB_NUM
  {
    if c.ids[idx] != 0 then c.(pending := c.pending[idx := id], txp := c.txp[idx := 3]) else Ranked(c, idx, id)
  }

  /** canid_clear_cache */
  function ClearSlot(c: Cache, idx: nat): Cache
    requires IsCache(c) && idx < TXB_NUM
  {
    c.(ids := c.ids[idx := 0])
  }

  // ----------------------------------------------------- the driver's code

  /** The pair of slots a < b has been compared when the loops stand at (i, j). */
  predicate Compared(a: nat, b: nat, i: nat, j: nat) {
    a < i || (a == i && b < j)
  }

  function BeatenSoFar(ids: seq<nat>, k: nat, m: nat, i: nat, j: nat): nat
    requires |ids| == TXB_NUM && k < TXB_NUM && m < TXB_NUM
  {
    if k != m && Compared(if k < m then k else m, if k < m then m else k, i, j) then Beaten(ids, k, m) else 0
  }

  function GreaterSoFar(ids: seq<nat>, k: nat, i: nat, j: nat): nat
    requires |ids| == TXB_NUM && k < TXB_NUM
  {
    BeatenSoFar(ids, k, 0, i, j) + BeatenSoFar(ids, k, 1, i, j) + BeatenSoFar(ids, k, 2, i, j)
  }

  lemma AllCompared(ids: seq<nat>, k: nat)
    requires |ids| == TXB_NUM && k < TXB_NUM
    ensures GreaterSoFar(ids, k, 3, 4) == Greater(ids, k)
  {
  }

  lemma CompareOne(ids: seq<nat>, k: nat, i: nat, j: nat)
    requires |ids| == TXB_NUM && k < TXB_NUM && i < j < TXB_NUM
    ensures GreaterSoFar(ids, k, i, j + 1)
         == GreaterSoFar(ids, k, i, j) + if k == i then Beaten(ids, i, j) else if k == j then Beaten(ids, j, i) else 0
  {
  }

  class TxbCache {
    const canid: array<nat>
    const priority: array<nat>
    const txp: array<nat>
    const pending: array<nat>

    ghost predicate Valid() {
      && canid.Length == TXB_NUM && priority.Length == TXB_NUM
      && txp.Length == TXB_NUM && pending.Length == TXB_NUM
      && canid != priority && canid != txp && canid != pending
      && priority != txp && priority != pending && txp != pending
    }

    ghost function Model(): (c: Cache)
      requires Valid()
      reads canid, txp, pending
      ensures IsCache(c)
    {
      Cache(canid[..], pending[..], txp[..])
    }

    constructor ()
      ensures Valid() && Model() == InitCache()
      ensures fresh(canid) && fresh(priority) && fresh(txp) && fresh(pending)
    {
      canid := new nat[TXB_NUM](_ => 0);
      priority := new nat[TXB_NUM](_ => 0);
      txp := new nat[TXB_NUM](_ => 0);
      pending := new nat[TXB_NUM](_ => 0);
    }

    /** canid_clear_cache */
    method Clear(idx: nat)
      requires Valid() && idx < TXB_NUM
      modifies canid
      ensures Model() == ClearSlot(old(Model()), idx)
      ensures canid[..] == old(canid[..])[idx := 0]
    {
      canid[idx] := 0;
    }

    /** get_frame_priority */
    method GetFramePriority(idx: nat, id: nat) returns (ret: int)
      requires Valid() && idx < TXB_NUM
      modifies canid, priority, txp
      ensures old(canid[idx]) != 0 ==> ret == -1 && Model() == old(Model())
      ensures old(canid[idx]) == 0 ==>
                && canid[..] == old(canid[..])[idx := id]
                && ret == Greater(canid[..], idx)
                && forall i | 0 <= i < TXB_NUM ::
                     txp[i] == if canid[i] != 0 && i != idx then Greater(canid[..], i) else old(txp[i])
    {
      if canid[idx] != 0 {
        return -1;
      }
      canid[idx] := id;
      ghost var ids := canid[..];
      RankSlots();
      var i := 0;
      while i < 3
        invariant 0 <= i <= 3 && canid[..] == ids
        invariant forall k | 0 <= k < 3 :: priority[k] == Greater(ids, k)
        invariant forall k | 0 <= k < 3 ::
                    txp[k] == if k < i && canid[k] != 0 && k != idx then Greater(ids, k) else old(txp[k])
      {
        if canid[i] != 0 && i != idx {
          txp[i] := priority[i];
        }
        i := i + 1;
      }
      return priority[idx];
    }

    /** One comparison of get_frame_priority: the smaller identifier gains a step. */
    method CompareSlots(i: nat, j: nat)
      requires Valid() && i < j < TXB_NUM
      requires forall k | 0 <= k < 3 :: priority[k] == GreaterSoFar(canid[..], k, i, j)
      modifies priority
      ensures forall k | 0 <= k < 3 :: priority[k] == GreaterSoFar(canid[..], k, i, j + 1)
    {
      ghost var ids := canid[..];
      CompareOne(ids, i, i, j);
      CompareOne(ids, j, i, j);
      CompareOne(ids, 3 - i - j, i, j);
      if canid[i] < canid[j] {
        priority[i] := priority[i] + 1;
      } else if canid[i] > canid[j] {
        priority[j] := priority[j] + 1;
      }
    }

    /** The loops of get_frame_priority that compare the slots pairwise. */
    method RankSlots()
      requires Valid()
      modifies priority
      ensures forall k | 0 <= k < TXB_NUM :: priority[k] == Greater(canid[..], k)
    {
      ghost var ids := canid[..];
      var i := 0;
      while i < 3
        invariant 0 <= i <= 3
        invariant forall k | 0 <= k < i :: priority[k] == 0
      {
        priority[i] := 0;
        i := i + 1;
      }
      i := 0;
      while i < 3
        invariant 0 <= i <= 3
        invariant forall k | 0 <= k < 3 :: priority[k] == GreaterSoFar(ids, k, i, i + 1)
      {
        var j := i + 1;
        while j < 3
          invariant i < j <= 3 || (i == 2 && j == 3)
          invariant forall k | 0 <= k < 3 :: priority[k] == GreaterSoFar(ids, k, i, j)
        {
          CompareSlots(i, j);
          j := j + 1;
        }
        i := i + 1;
      }
      AllCompared(ids, 0);
      AllCompared(ids, 1);
      AllCompared(ids, 2);
    }

    /** The part of can_sendto after the buffer was found idle. */
    method SendFrame(idx: nat, id: nat)
      requires Valid() && idx < TXB_NUM
      modifies canid, priority, txp, pending
      ensures Model() == SendTo(old(Model()), idx, id)
      ensures pending[..] == old(pending[..])[idx := id]
      ensures canid[..] == if old(canid[idx]) == 0 then old(canid[..])[idx := id] else old(canid[..])
    {
      var ret := GetFramePriority(idx, id);
      var prio := ret % 4;
      pending[idx] := id;
      txp[idx] := prio;
    }
  }

  // -------------------------------------------------------------- the order

  /** Of two buffers in the cache, the smaller identifier has the larger TXP, and equal
      identifiers have equal TXP. */
  ghost predicate Ordered(c: Cache)
    requires IsCache(c)
  {
    && (forall i | 0 <= i < TXB_NUM && c.ids[i] != 0 :: c.pending[i] == c.ids[i] && c.txp[i] <= 2)
    && OrderedPending(c)
  }

  ghost predicate OrderedPending(c: Cache)
    requires IsCache(c)
  {
    forall i, j | 0 <= i < TXB_NUM && 0 <= j < TXB_NUM && c.ids[i] != 0 && c.ids[j] != 0 ::
      && (c.pending[i] < c.pending[j] <==> c.txp[i] > c.txp[j])
      && (c.pending[i] == c.pending[j] <==> c.txp[i] == c.txp[j])
  }

  lemma GreaterIsAntitone(ids: seq<nat>, i: nat, j: nat)
    requires |ids| == TXB_NUM && i < TXB_NUM && j < TXB_NUM
    ensures ids[i] < ids[j] ==> Greater(ids, i) > Greater(ids, j)
    ensures ids[i] == ids[j] ==> Greater(ids, i) == Greater(ids, j)
  {
  }

  /** The cache names the frames that are pending. */
  ghost predicate Tracks(c: Cache)
    requires IsCache(c)
  {
    forall i | 0 <= i < TXB_NUM && c.ids[i] != 0 :: c.pending[i] == c.ids[i]
  }

  /** Sending into a free slot ranks all cached frames afresh. */
  lemma SendToFreeOrders(c: Cache, idx: nat, id: nat)
    requires IsCache(c) && idx < TXB_NUM && Tracks(c) && c.ids[idx] == 0 && 0 < id
    ensures Ordered(SendTo(c, idx, id))
    ensures SendTo(c, idx, id).txp[idx] == Greater(c.ids[idx := id], idx) <= 2
  {
    var ids := c.ids[idx := id];
    forall i, j | 0 <= i < TXB_NUM && 0 <= j < TXB_NUM
      ensures ids[i] < ids[j] ==> Greater(ids, i) > Greater(ids, j)
      ensures ids[i] == ids[j] ==> Greater(ids, i) == Greater(ids, j)
    {
      GreaterIsAntitone(ids, i, j);
    }
  }

  // ------------------------------------------------------------------- runs

  datatype Op = Send(idx: nat, id: nat) | Clear(idx: nat)

  predicate IsOp(op: Op) {
    op.idx < TXB_NUM && (op.Send? ==> 0 < op.id)
  }

  function Do(c: Cache, op: Op): (r: Cache)
    requires IsCache(c) && IsOp(op)
    ensures IsCache(r)
  {
    match op
    case Send(idx, id) => SendTo(c, idx, id)
    case Clear(idx) => ClearSlot(c, idx)
  }

  function RunFrom(c: Cache, ops: seq<Op>): (r: Cache)
    requires IsCache(c) && forall i | 0 <= i < |ops| :: IsOp(ops[i])
    ensures IsCache(r)
  {
    if ops == [] then c else Do(RunFrom(c, ops[..|ops| - 1]), ops[|ops| - 1])
  }

  predicate IntoFree(c: Cache, op: Op)
    requires IsCache(c)
  {
    op.Send? ==> op.idx < TXB_NUM && c.ids[op.idx] == 0
  }

  /** Each send of the run goes to a slot that is free at that time. */
  predicate IntoFreeSlots(c: Cache, ops: seq<Op>)
    requires IsCache(c) && forall i | 0 <= i < |ops| :: IsOp(ops[i])
  {
    ops == [] ||
    (IntoFreeSlots(c, ops[..|ops| - 1]) && IntoFree(RunFrom(c, ops[..|ops| - 1]), ops[|ops| - 1]))
  }

  /** The order holds after every run of sends into free slots and cache clears. */
  lemma {:induction false} PriorityOrder(ops: seq<Op>)
    requires forall i | 0 <= i < |ops| :: IsOp(ops[i])
    requires IntoFreeSlots(InitCache(), ops)
    ensures Ordered(RunFrom(InitCache(), ops))
  {
    if ops != [] {
      var n := |ops| - 1;
      PriorityOrder(ops[..n]);
      if ops[n].Send? {
        SendToFreeOrders(RunFrom(InitCache(), ops[..n]), ops[n].idx, ops[n].id);
      }
    }
  }

  // ------------------------------------------------- what a run leaves behind

  predicate AllOps(ops: seq<Op>) {
    forall i | 0 <= i < |ops| :: IsOp(ops[i])
  }

  function Run(ops: seq<Op>): (c: Cache)
    requires AllOps(ops)
    ensures IsCache(c)
  {
    RunFrom(InitCache(), ops)
  }

  /** The identifier of the first send to slot i after the last clear of it, or 0. */
  function FirstSince(ops: seq<Op>, i: nat): nat {
    if ops == [] then 0
    else
      var before, op := FirstSince(ops[..|ops| - 1], i), ops[|ops| - 1];
      if op.idx != i then before
      else match op
           case Clear(_) => 0
           case Send(_, id) => if before == 0 then id else before
  }

  /** The identifier of the last send to buffer i, or 0. */
  function LastSent(ops: seq<Op>, i: nat): nat {
    if ops == [] then 0
    else if ops[|ops| - 1].Send? && ops[|ops| - 1].idx == i then ops[|ops| - 1].id
    else LastSent(ops[..|ops| - 1], i)
  }

  /** A slot is free unless a frame was sent to its buffer since it was last cleared; then it has the
      identifier of the first such frame. The frame in the buffer is the last one sent to it. */
  lemma {:induction false} SlotsOfRun(ops: seq<Op>, i: nat)
    requires AllOps(ops) && i < TXB_NUM
    ensures Run(ops).ids[i] == FirstSince(ops, i)
    ensures Run(ops).pending[i] == LastSent(ops, i)
  {
    if ops != [] {
      SlotsOfRun(ops[..|ops| - 1], i);
    }
  }

  function Slots(ops: seq<Op>): (v: seq<nat>)
    ensures |v| == TXB_NUM
  {
    [FirstSince(ops, 0), FirstSince(ops, 1), FirstSince(ops, 2)]
  }

  /** How many slots hold a greater identifier than slot i. */
  function Above(v: seq<nat>, i: nat): nat
    requires |v| == TXB_NUM && i < TXB_NUM
  {
    |set m: nat | m < |v| && v[i] < v[m]|
  }

  function Only(b: bool, m: nat): (s: set<nat>)
    ensures |s| == if b then 1 else 0
    ensures forall x :: x in s <==> b && x == m
  {
    if b then {m} else {}
  }

  lemma AboveIsGreater(v: seq<nat>, i: nat)
    requires |v| == TXB_NUM && i < TXB_NUM
    ensures Above(v, i) == Greater(v, i)
  {
    var a, b, c := Only(v[i] < v[0], 0), Only(v[i] < v[1], 1), Only(v[i] < v[2], 2);
    assert (set m: nat | m < |v| && v[i] < v[m]) == a + b + c;
    assert |a + b| == |a| + |b|;
    assert |a + b + c| == |a + b| + |c|;
  }

  lemma SlotsAre(ops: seq<Op>)
    requires AllOps(ops)
    ensures Run(ops).ids == Slots(ops)
  {
    SlotsOfRun(ops, 0);
    SlotsOfRun(ops, 1);
    SlotsOfRun(ops, 2);
  }

  /** The priorities after one more operation: a clear changes none; a send to a free slot gives each
      cached frame the number of greater identifiers in the cache; a send to a taken slot gives its
      own frame 3. */
  lemma PrioritiesOfRun(ops: seq<Op>, op: Op, i: nat)
    requires AllOps(ops) && IsOp(op) && i < TXB_NUM
    ensures AllOps(ops + [op])
    ensures var before, after := Run(ops).txp[i], Run(ops + [op]).txp[i];
            match op
            case Clear(_) => after == before
            case Send(idx, _) =>
              after == if FirstSince(ops, idx) != 0 then (if i == idx then 3 else before)
                       else if FirstSince(ops + [op], i) != 0 then Above(Slots(ops + [op]), i)
                       else before
  {
    OneMore(InitCache(), ops, op);
    SlotsOfRun(ops, op.idx);
    SlotsAre(ops + [op]);
    AboveIsGreater(Slots(ops + [op]), i);
  }

  // ---------------------------------------------- sends into slots that are taken

  /** A send to an idle buffer keeps the order for the moment exactly when its cache
      slot is free or its identifier is smaller than those of all other cached frames. */
  lemma SendOrdersIff(c: Cache, idx: nat, id: nat)
    requires IsCache(c) && idx < TXB_NUM && Ordered(c) && 0 < id
    ensures OrderedPending(SendTo(c, idx, id))
       <==> c.ids[idx] == 0 || forall j | 0 <= j < TXB_NUM && j != idx && c.ids[j] != 0 :: id < c.pending[j]
  {
    var r := SendTo(c, idx, id);
    if c.ids[idx] == 0 {
      SendToFreeOrders(c, idx, id);
    } else {
      assert forall j | 0 <= j < TXB_NUM && j != idx && c.ids[j] != 0 ::
          r.ids[j] != 0 && r.txp[idx] == 3 > r.txp[j] && r.pending[j] == c.pending[j];
      assert r.ids[idx] != 0 && r.pending[idx] == id;
    }
  }

  lemma TwoOps(c: Cache, a: Op, b: Op)
    requires IsCache(c) && IsOp(a) && IsOp(b)
    ensures RunFrom(c, [a, b]) == Do(Do(c, a), b)
    ensures IntoFreeSlots(c, [a, b])
       <==> (a.Send? ==> c.ids[a.idx] == 0) && (b.Send? ==> Do(c, a).ids[b.idx] == 0)
  {
    assert [a, b][..1] == [a] && [a][..0] == [];
    assert RunFrom(c, []) == c && IntoFreeSlots(c, []);
    assert RunFrom(c, [a]) == Do(c, a);
  }

  lemma OneMore(c: Cache, ops: seq<Op>, op: Op)
    requires IsCache(c) && IsOp(op) && forall i | 0 <= i < |ops| :: IsOp(ops[i])
    ensures forall i | 0 <= i < |ops + [op]| :: IsOp((ops + [op])[i])
    ensures RunFrom(c, ops + [op]) == Do(RunFrom(c, ops), op)
  {
    assert (ops + [op])[..|ops|] == ops;
  }

  /** A taken slot keeps its identifier for the ranking whatever is sent to the buffer. */
  lemma StaleSlot(c: Cache, id: nat)
    requires IsCache(c) && c.ids[0] != 0 && c.ids[1] == 0 && 0 < id < c.ids[0] && c.ids[2] == 0
    ensures var r := SendTo(c, 1, id); r.ids[0] == c.ids[0] && r.ids[1] == id
    ensures var r := SendTo(c, 1, id); r.pending[0] == c.pending[0] && r.pending[1] == id && r.txp[0] < r.txp[1]
  {
    var ids := c.ids[1 := id];
    GreaterIsAntitone(ids, 1, 0);
    assert SendTo(c, 1, id) == Ranked(c, 1, id);
  }

  lemma FirstTwo(a: nat, b: nat)
    requires 0 < b < a
    ensures var c1 := SendTo(InitCache(), 0, a);
            var c2 := SendTo(c1, 0, b);
            && c2.ids[0] == a && c2.ids[1] == 0 && c2.ids[2] == 0 && c2.pending[0] == b && OrderedPending(c2)
  {
    var c1 := SendTo(InitCache(), 0, a);
    SendToFreeOrders(InitCache(), 0, a);
    assert c1.ids == InitCache().ids[0 := a];
    SendOrdersIff(c1, 0, b);
  }

  /** That is not enough for the next send: with a in the cache for the frame with identifier b,
      a frame with an identifier d between the two is ranked before it. */
  lemma StaleCacheFails(a: nat, b: nat, d: nat)
    requires 0 < b < d < a
    ensures OrderedPending(RunFrom(InitCache(), [Send(0, a), Send(0, b)]))
    ensures !OrderedPending(RunFrom(InitCache(), [Send(0, a), Send(0, b)] + [Send(1, d)]))
  {
    var ops := [Send(0, a), Send(0, b)];
    TwoOps(InitCache(), ops[0], ops[1]);
    FirstTwo(a, b);
    OneMore(InitCache(), ops, Send(1, d));
    StaleSlot(RunFrom(InitCache(), ops), d);
  }

  /** The order holds and will hold after any further sends into free slots and cache clears. */
  ghost predicate StaysOrdered(c: Cache)
    requires IsCache(c)
  {
    forall ops: seq<Op> | (forall i | 0 <= i < |ops| :: IsOp(ops[i])) && IntoFreeSlots(c, ops) ::
      OrderedPending(RunFrom(c, ops))
  }

  lemma {:induction false} SteadyRun(c: Cache, ops: seq<Op>)
    requires IsCache(c) && Tracks(c) && OrderedPending(c)
    requires (forall i | 0 <= i < |ops| :: IsOp(ops[i])) && IntoFreeSlots(c, ops)
    ensures Tracks(RunFrom(c, ops)) && OrderedPending(RunFrom(c, ops))
  {
    if ops != [] {
      var n := |ops| - 1;
      SteadyRun(c, ops[..n]);
      if ops[n].Send? {
        SendToFreeOrders(RunFrom(c, ops[..n]), ops[n].idx, ops[n].id);
      }
    }
  }

  /** A frame the cache has under another identifier gets a rank that belongs to that identifier:
      a frame which really has it then ties with the first. */
  lemma StaleBreaks(c: Cache, k: nat)
    requires IsCache(c) && k < TXB_NUM && c.ids[k] != 0 && c.pending[k] != c.ids[k]
    ensures !StaysOrdered(c)
  {
    var j, id := if k == 0 then 1 else 0, c.ids[k];
    var a, b := Clear(j), Send(j, id);
    TwoOps(c, a, b);
    assert [a, b][0] == a && [a, b][1] == b;
    var r := RunFrom(c, [a, b]);
    assert r.ids[j] == id == r.ids[k] && r.pending[j] == id && r.pending[k] == c.pending[k];
    GreaterIsAntitone(r.ids, j, k);
    assert r.txp[j] == Greater(r.ids, j) == r.txp[k];
    assert !OrderedPending(r);
  }

  /** The order is there to stay exactly when it holds and the cache names the pending frames. */
  lemma StaysOrderedIff(c: Cache)
    requires IsCache(c)
    ensures StaysOrdered(c) <==> OrderedPending(c) && Tracks(c)
  {
    if OrderedPending(c) && Tracks(c) {
      forall ops: seq<Op> | (forall i | 0 <= i < |ops| :: IsOp(ops[i])) && IntoFreeSlots(c, ops)
        ensures OrderedPending(RunFrom(c, ops))
      {
        SteadyRun(c, ops);
      }
    } else if !Tracks(c) {
      var k :| 0 <= k < TXB_NUM && c.ids[k] != 0 && c.pending[k] != c.ids[k];
      StaleBreaks(c, k);
    } else {
      var none: seq<Op> := [];
      assert IntoFreeSlots(c, none) && RunFrom(c, none) == c;
    }
  }

  ghost predicate TwoBits(c: Cache)
    requires IsCache(c)
  {
    forall i | 0 <= i < TXB_NUM :: c.txp[i] <= 3
  }

  /** The slot is free, or the send repeats the identifier in it and that is below all others (an
      equal one is no harm if its frame has priority 3 already). */
  ghost predicate KeepsRank(c: Cache, idx: nat, id: nat)
    requires IsCache(c) && idx < TXB_NUM
  {
    c.ids[idx] == 0 ||
    (id == c.ids[idx] && forall j | 0 <= j < TXB_NUM && j != idx && c.ids[j] != 0 ::
                           id < c.ids[j] || (id == c.ids[j] && c.txp[j] == 3))
  }

  /** Of a cache in lasting order, any send keeps the order for good if and only if its slot is free
      or it repeats the slot's identifier, that being the smallest. */
  lemma SendStaysOrderedIff(c: Cache, idx: nat, id: nat)
    requires IsCache(c) && TwoBits(c) && idx < TXB_NUM && 0 < id && StaysOrdered(c)
    ensures StaysOrdered(SendTo(c, idx, id)) <==> KeepsRank(c, idx, id)
    ensures TwoBits(SendTo(c, idx, id))
  {
    var r := SendTo(c, idx, id);
    StaysOrderedIff(c);
    StaysOrderedIff(r);
    if c.ids[idx] == 0 {
      SendToFreeOrders(c, idx, id);
    } else {
      TakenSlot(c, idx, id);
    }
  }

  lemma TakenSlot(c: Cache, idx: nat, id: nat)
    requires IsCache(c) && TwoBits(c) && idx < TXB_NUM && c.ids[idx] != 0 && Tracks(c) && OrderedPending(c)
    ensures var r := SendTo(c, idx, id); OrderedPending(r) && Tracks(r) <==> KeepsRank(c, idx, id)
  {
    var r := SendTo(c, idx, id);
    assert r.ids == c.ids && r.pending == c.pending[idx := id] && r.txp == c.txp[idx := 3];
    if KeepsRank(c, idx, id) {
      forall j | 0 <= j < TXB_NUM && j != idx && c.ids[j] != 0
        ensures if id < c.ids[j] then r.txp[j] < 3 else r.txp[j] == 3
      {
        assert c.pending[idx] <= c.pending[j];
      }
    } else if id == c.ids[idx] {
      var j :| 0 <= j < TXB_NUM && j != idx && c.ids[j] != 0 && !(id < c.ids[j]) && !(id == c.ids[j] && c.txp[j] == 3);
      assert r.pending[j] <= r.pending[idx] && r.txp[j] <= r.txp[idx];
    } else {
      assert r.pending[idx] != r.ids[idx];
    }
  }

  // ------------------------------------------------- runs with any sends at all

  ghost predicate SendKeepsRank(c: Cache, op: Op)
    requires IsCache(c)
  {
    op.Send? ==> op.idx < TXB_NUM && KeepsRank(c, op.idx, op.id)
  }

  ghost predicate AllKeepRank(c: Cache, ops: seq<Op>)
    requires IsCache(c) && forall i | 0 <= i < |ops| :: IsOp(ops[i])
  {
    ops == [] ||
    (AllKeepRank(c, ops[..|ops| - 1]) && SendKeepsRank(RunFrom(c, ops[..|ops| - 1]), ops[|ops| - 1]))
  }

  ghost predicate AlwaysStays(c: Cache, ops: seq<Op>)
    requires IsCache(c) && forall i | 0 <= i < |ops| :: IsOp(ops[i])
  {
    StaysOrdered(RunFrom(c, ops)) && (ops == [] || AlwaysStays(c, ops[..|ops| - 1]))
  }

  /** Over a run of any sends and clears, the order is there to stay in every state exactly when
      every send of the run keeps the rank. */
  lemma {:induction false} RunStaysOrderedIff(ops: seq<Op>)
    requires forall i | 0 <= i < |ops| :: IsOp(ops[i])
    ensures AlwaysStays(InitCache(), ops) <==> AllKeepRank(InitCache(), ops)
    ensures TwoBits(RunFrom(InitCache(), ops))
  {
    if ops == [] {
      StaysOrderedIff(InitCache());
    } else {
      var n := |ops| - 1;
      RunStaysOrderedIff(ops[..n]);
      StepStaysOrderedIff(RunFrom(InitCache(), ops[..n]), ops[n]);
    }
  }

  lemma StepStaysOrderedIff(c: Cache, op: Op)
    requires IsCache(c) && TwoBits(c) && IsOp(op)
    ensures StaysOrdered(c) ==> (StaysOrdered(Do(c, op)) <==> SendKeepsRank(c, op))
    ensures TwoBits(Do(c, op))
  {
    if op.Send? {
      SendTwoBits(c, op.idx, op.id);
      if StaysOrdered(c) {
        SendStaysOrderedIff(c, op.idx, op.id);
      }
    } else {
      StaysOrderedIff(c);
      StaysOrderedIff(ClearSlot(c, op.idx));
    }
  }

  lemma SendTwoBits(c: Cache, idx: nat, id: nat)
    requires IsCache(c) && TwoBits(c) && idx < TXB_NUM
    ensures TwoBits(SendTo(c, idx, id))
  {
  }
}
