/**
 The acceptance filters of the MCP2515: six filters in two groups, each group with a mask of
 its own. A slot is in use when its filter registers are not all zero. The driver keeps no
 table; it decides from the registers alone.
 */
module CanFilters {
  import opened CanFrames

  const ZERO := IdBytes(0, 0, 0, 0)
  const NUM_FILTERS: nat := 6

  /** The filter and mask registers. */
  datatype Bank = Bank(filters: seq<IdBytes>, masks: seq<IdBytes>)

  ghost predicate IsBank(b: Bank) {
    |b.filters| == NUM_FILTERS && |b.masks| == 2
  }

  const EMPTY_BANK := Bank([ZERO, ZERO, ZERO, ZERO, ZERO, ZERO], [ZERO, ZERO])

  function Group(slot: nat): nat {
    if slot < 2 then 0 else 1
  }

  /** Group g has the slots First(g) .. Limit(g). */
  function First(g: nat): nat {
    g * 2
  }

  function Limit(g: nat): nat {
    g * 4 + 2
  }

  // ------------------------------------------- what set_rx_filter reads back

  /** The `uint8_t` variables sid and eid of set_rx_filter. */
  function MaskSid(m: IdBytes): bv8 {
    (m.sidh << 3) | (m.sidl >> 5)
  }

  function MaskEid(m: IdBytes): bv8 {
    m.eid0
  }

  function CurMask(m: IdBytes, exide: bool): bv32 {
    if exide then ((MaskSid(m) as bv32) << 18) | (MaskEid(m) as bv32) else MaskSid(m) as bv32
  }

  predicate MaskIsFree(m: IdBytes, exide: bool) {
    CurMask(m, exide) == 0 && MaskEid(m) == 0
  }

  // ------------------------------------------------------------- operations

  function Install(b: Bank, slot: nat, id: bv32, exide: bool, mask: bv32): Bank
    requires slot < |b.filters| && Group(slot) < |b.masks|
  {
    b.(filters := b.filters[slot := IdRegs(id, exide)],
       masks := if mask == 0 then b.masks else b.masks[Group(slot) := MaskRegs(mask, exide)])
  }

  /** The first empty slot in lo .. hi, or hi. */
  function FirstEmpty(b: Bank, lo: nat, hi: nat): (j: nat)
    requires lo <= hi <= |b.filters|
    ensures lo <= j <= hi
    ensures forall i | lo <= i < j :: b.filters[i] != ZERO
    ensures j < hi ==> b.filters[j] == ZERO
    decreases hi - lo
  {
    if lo == hi || b.filters[lo] == ZERO then lo else FirstEmpty(b, lo + 1, hi)
  }

  datatype SetResult = SetResult(bank: Bank, ret: int)

  /** set_rx_filter from group g on. */
  function SetFrom(b: Bank, g: nat, id: bv32, exide: bool, mask: bv32): SetResult
    requires |b.filters| == NUM_FILTERS && |b.masks| == 2 && g <= 2
    decreases 2 - g
  {
    if g == 2 then SetResult(b, -1)
    else if MaskIsFree(b.masks[g], exide) then SetResult(Install(b, First(g), id, exide, mask), First(g))
    else if CurMask(b.masks[g], exide) == mask && FirstEmpty(b, First(g), Limit(g)) < Limit(g) then
      var j := FirstEmpty(b, First(g), Limit(g));
      SetResult(Install(b, j, id, exide, 0), j)
    else SetFrom(b, g + 1, id, exide, mask)
  }

  function SetRx(b: Bank, id: bv32, exide: bool, mask: bv32): SetResult
    requires |b.filters| == NUM_FILTERS && |b.masks| == 2
  {
    SetFrom(b, 0, id, exide, mask)
  }

  function ClearRx(b: Bank, slot: nat): Bank
    requires |b.filters| == NUM_FILTERS && |b.masks| == 2 && slot < NUM_FILTERS
  {
    var c := b.(filters := b.filters[slot := ZERO]);
    var g := Group(slot);
    if FirstUsed(c, First(g), Limit(g)) == Limit(g) then c.(masks := c.masks[g := ZERO]) else c
  }

  /** The first slot in use in lo .. hi, or hi. */
  function FirstUsed(b: Bank, lo: nat, hi: nat): (j: nat)
    requires lo <= hi <= |b.filters|
    ensures lo <= j <= hi
    ensures forall i | lo <= i < j :: b.filters[i] == ZERO
    ensures j < hi ==> b.filters[j] != ZERO
    decreases hi - lo
  {
    if lo == hi || b.filters[lo] != ZERO then lo else FirstUsed(b, lo + 1, hi)
  }

  // ----------------------------------------------------- the driver's code

  const RXM_BASE: nat := 0x20

  function RegsAt(r: seq<bv8>, a: nat): IdBytes
    requires a + 4 <= |r|
  {
    IdBytes(r[a], r[a + 1], r[a + 2], r[a + 3])
  }

  /** The bank in the register file: RXFSIDH(n) is n << 2, RXMSIDH(n) is (n << 2) + 0x20. */
  function View(r: seq<bv8>): Bank
    requires 0x28 <= |r|
  {
    Bank([RegsAt(r, 0), RegsAt(r, 4), RegsAt(r, 8), RegsAt(r, 12), RegsAt(r, 16), RegsAt(r, 20)],
         [RegsAt(r, 0x20), RegsAt(r, 0x24)])
  }

  predicate FilterRegister(a: nat) {
    a < 24 || 0x20 <= a < 0x28
  }

  class Controller {
    const regs: array<bv8>

    constructor (size: nat)
      requires 0x28 <= size
      ensures fresh(regs) && regs.Length == size
      ensures View(regs[..]) == EMPTY_BANK
    {
      regs := new bv8[size](_ => 0);
    }

    /** mcp2515_write_nregs of four bytes. */
    method WriteRegs(a: nat, b: IdBytes)
      requires a + 4 <= regs.Length
      modifies regs
      ensures RegsAt(regs[..], a) == b
      ensures forall i | 0 <= i < regs.Length && !(a <= i < a + 4) :: regs[i] == old(regs[i])
    {
      regs[a], regs[a + 1], regs[a + 2], regs[a + 3] := b.sidh, b.sidl, b.eid8, b.eid0;
    }

    method WriteFilter(slot: nat, b: IdBytes)
      requires 0x28 <= regs.Length && slot < NUM_FILTERS
      modifies regs
      ensures View(regs[..]) == old(View(regs[..])).(filters := old(View(regs[..])).filters[slot := b])
      ensures forall i | 0 <= i < regs.Length && !FilterRegister(i) :: regs[i] == old(regs[i])
    {
      WriteRegs(slot * 4, b);
    }

    method WriteMask(g: nat, b: IdBytes)
      requires 0x28 <= regs.Length && g < 2
      modifies regs
      ensures View(regs[..]) == old(View(regs[..])).(masks := old(View(regs[..])).masks[g := b])
      ensures forall i | 0 <= i < regs.Length && !FilterRegister(i) :: regs[i] == old(regs[i])
    {
      WriteRegs(RXM_BASE + g * 4, b);
    }

    /** is_filter_empty */
    method IsFilterEmpty(slot: nat) returns (empty: bool)
      requires 0x28 <= regs.Length && slot < NUM_FILTERS
      ensures empty <==> View(regs[..]).filters[slot] == ZERO
    {
      ghost var s := regs[slot * 4..slot * 4 + 4];
      var ret: bv8 := 0;
      for i := 0 to 4
        invariant ret == 0 <==> forall j | 0 <= j < i :: s[j] == 0
      {
        var b := regs[slot * 4 + i];
        assert b == s[i];
        OrZero(ret, b);
        ret := ret | b;
      }
      empty := ret == 0;
      assert empty <==> s[0] == 0 && s[1] == 0 && s[2] == 0 && s[3] == 0;
      assert View(regs[..]).filters[slot] == IdBytes(s[0], s[1], s[2], s[3]);
    }

    /** write_to_filter: a zero mask leaves the mask registers alone. */
    method WriteToFilter(slot: nat, id: bv32, exide: bool, mask: bv32)
      requires 0x28 <= regs.Length && slot < NUM_FILTERS
      modifies regs
      ensures View(regs[..]) == Install(old(View(regs[..])), slot, id, exide, mask)
      ensures forall i | 0 <= i < regs.Length && !FilterRegister(i) :: regs[i] == old(regs[i])
    {
      if mask != 0 {
        var m := MaskRegs(mask, exide);
        if slot < 2 {
          WriteMask(0, m);
        } else {
          WriteMask(1, m);
        }
      }
      var f := IdRegs(id, exide);
      WriteFilter(slot, f);
    }

    /** set_rx_filter */
    method SetRxFilter(id: bv32, exide: bool, mask: bv32) returns (ret: int)
      requires 0x28 <= regs.Length
      modifies regs
      ensures SetResult(View(regs[..]), ret) == SetRx(old(View(regs[..])), id, exide, mask)
      ensures forall i | 0 <= i < regs.Length && !FilterRegister(i) :: regs[i] == old(regs[i])
    {
      ghost var b := View(regs[..]);
      var i := 0;
      while i < 2
        invariant 0 <= i <= 2 && regs[..] == old(regs[..])
        invariant SetFrom(b, i, id, exide, mask) == SetRx(b, id, exide, mask)
      {
        var m := RegsAt(regs[..], RXM_BASE + i * 4);
        assert m == b.masks[i];
        var eid := MaskEid(m);
        var curMask := CurMask(m, exide);
        if curMask == 0 && eid == 0 {
          WriteToFilter(i * 2, id, exide, mask);
          return i * 2;
        } else if curMask == mask {
          var j := i * 2;
          while j < i * 4 + 2
            invariant First(i) <= j <= Limit(i) && regs[..] == old(regs[..])
            invariant FirstEmpty(b, First(i), Limit(i)) == FirstEmpty(b, j, Limit(i))
          {
            var empty := IsFilterEmpty(j);
            if empty {
              WriteToFilter(j, id, exide, 0);
              return j;
            }
            j := j + 1;
          }
        }
        i := i + 1;
      }
      return -1;
    }

    /** clear_rx_filter */
    method ClearRxFilter(slot: nat)
      requires 0x28 <= regs.Length && slot < NUM_FILTERS
      modifies regs
      ensures View(regs[..]) == ClearRx(old(View(regs[..])), slot)
      ensures forall i | 0 <= i < regs.Length && !FilterRegister(i) :: regs[i] == old(regs[i])
    {
      WriteFilter(slot, ZERO);
      ghost var c := View(regs[..]);
      label cleared:
      var g := if slot < 2 then 0 else 1;
      var i := g * 2;
      while i < g * 4 + 2
        invariant First(g) <= i <= Limit(g) && regs[..] == old@cleared(regs[..])
        invariant FirstUsed(c, First(g), Limit(g)) == FirstUsed(c, i, Limit(g))
      {
        var empty := IsFilterEmpty(i);
        if !empty {
          break;
        }
        i := i + 1;
      }
      if i == g * 4 + 2 {
        WriteMask(g, ZERO);
      }
    }
  }

  lemma OrZero(a: bv8, b: bv8)
    ensures a | b == 0 <==> a == 0 && b == 0
  {
  }

  // ---------------------------------------------------------- the allocator

  /** Identifiers and masks for which the registers tell the driver everything. */
  predicate Supported(id: bv32, mask: bv32) {
    1 <= id <= 0x7FF && 1 <= mask <= 0xFF
  }

  lemma MaskReadsBack(mask: bv32)
    requires mask <= 0xFF
    ensures CurMask(MaskRegs(mask, false), false) == mask && MaskEid(MaskRegs(mask, false)) == 0
  {
  }

  lemma MaskReadsLow(mask: bv32)
    ensures CurMask(MaskRegs(mask, false), false) == mask & 0xFF && MaskEid(MaskRegs(mask, false)) == 0
  {
  }

  lemma ZeroMask()
    ensures CurMask(ZERO, false) == 0 && MaskEid(ZERO) == 0
  {
  }

  lemma IdInUse(id: bv32)
    ensures (IdRegs(id, false) == ZERO) == (id & 0x7FF == 0)
  {
  }

  lemma LowBits(x: bv32)
    ensures 1 <= x <= 0x7FF ==> x & 0x7FF != 0
    ensures x & 0xFF == x <==> x <= 0xFF
  {
  }

  ghost predicate AllEmpty(b: Bank, g: nat)
    requires |b.filters| == NUM_FILTERS && g < 2
  {
    forall i | First(g) <= i < Limit(g) :: b.filters[i] == ZERO
  }

  /** Every slot in use of group g was installed with the mask that is in the mask registers;
      installed[i] is the mask slot i was installed with. */
  ghost predicate MasksAgree(b: Bank, installed: seq<bv32>, g: nat)
    requires |b.filters| == NUM_FILTERS && |b.masks| == 2 && |installed| == NUM_FILTERS && g < 2
  {
    forall i | First(g) <= i < Limit(g) && b.filters[i] != ZERO ::
      1 <= installed[i] <= 0xFF && b.masks[g] == MaskRegs(installed[i], false)
  }

  ghost predicate GroupOk(b: Bank, installed: seq<bv32>, g: nat)
    requires |b.filters| == NUM_FILTERS && |b.masks| == 2 && |installed| == NUM_FILTERS && g < 2
  {
    (b.masks[g] == ZERO <==> AllEmpty(b, g)) && MasksAgree(b, installed, g)
  }

  ghost predicate AllocOk(b: Bank, installed: seq<bv32>) {
    IsBank(b) && |installed| == NUM_FILTERS && GroupOk(b, installed, 0) && GroupOk(b, installed, 1)
  }

  lemma MaskInUse(mask: bv32)
    requires 1 <= mask <= 0xFF
    ensures MaskRegs(mask, false) != ZERO
  {
    MaskReadsBack(mask);
    ZeroMask();
  }

  /** What the driver reads back of a group's mask, in a bank in order. */
  lemma ReadBack(b: Bank, installed: seq<bv32>, g: nat)
    requires AllocOk(b, installed) && g < 2
    ensures MaskIsFree(b.masks[g], false) <==> AllEmpty(b, g)
    ensures forall i | First(g) <= i < Limit(g) && b.filters[i] != ZERO :: CurMask(b.masks[g], false) == installed[i]
  {
    ZeroMask();
    forall i | First(g) <= i < Limit(g) && b.filters[i] != ZERO
      ensures CurMask(b.masks[g], false) == installed[i] != 0
    {
      MaskReadsBack(installed[i]);
    }
  }

  /** A set may take slot j of group g: the group is empty, or j is free and the slots in use
      have the same mask. */
  ghost predicate Available(b: Bank, installed: seq<bv32>, mask: bv32, j: nat)
    requires AllocOk(b, installed)
  {
    && j < NUM_FILTERS && b.filters[j] == ZERO
    && forall i | First(Group(j)) <= i < Limit(Group(j)) && b.filters[i] != ZERO :: installed[i] == mask
  }

  /** A group none of whose registers have changed stays in order. */
  lemma OtherGroup(b: Bank, installed: seq<bv32>, c: Bank, installed': seq<bv32>, g: nat)
    requires IsBank(b) && IsBank(c) && |installed| == |installed'| == NUM_FILTERS && g < 2
    requires GroupOk(b, installed, g) && c.masks[g] == b.masks[g]
    requires forall i | First(g) <= i < Limit(g) :: c.filters[i] == b.filters[i] && installed'[i] == installed[i]
    ensures GroupOk(c, installed', g)
  {
    assert AllEmpty(c, g) <==> AllEmpty(b, g);
  }

  lemma OwnGroup(b: Bank, installed: seq<bv32>, c: Bank, mask: bv32, j: nat)
    requires AllocOk(b, installed) && IsBank(c) && 1 <= mask <= 0xFF && Available(b, installed, mask, j)
    requires c.filters == b.filters[j := c.filters[j]] && c.filters[j] != ZERO
    requires c.masks[Group(j)] == MaskRegs(mask, false)
    ensures GroupOk(c, installed[j := mask], Group(j))
  {
    var g := Group(j);
    MaskInUse(mask);
    assert First(g) <= j < Limit(g);
    assert !AllEmpty(c, g);
    forall i | First(g) <= i < Limit(g) && c.filters[i] != ZERO
      ensures installed[j := mask][i] == mask
    {
      assert i != j ==> b.filters[i] != ZERO;
    }
  }

  lemma InstallKeeps(b: Bank, installed: seq<bv32>, id: bv32, mask: bv32, j: nat)
    requires AllocOk(b, installed) && Supported(id, mask) && Available(b, installed, mask, j)
    ensures var m := if AllEmpty(b, Group(j)) then mask else 0;
            AllocOk(Install(b, j, id, false, m), installed[j := mask])
  {
    IdInUse(id);
    LowBits(id);
    var g := Group(j);
    var c := Install(b, j, id, false, if AllEmpty(b, g) then mask else 0);
    assert c.masks[g] == MaskRegs(mask, false) by {
      if !AllEmpty(b, g) {
        var i :| First(g) <= i < Limit(g) && b.filters[i] != ZERO;
        assert installed[i] == mask;
      }
    }
    OwnGroup(b, installed, c, mask, j);
    OtherGroup(b, installed, c, installed[j := mask], 1 - g);
  }

  /** When set_rx_filter passes over group g, no slot of the group is available. */
  lemma PassedOver(b: Bank, installed: seq<bv32>, mask: bv32, g: nat)
    requires AllocOk(b, installed) && g < 2 && !MaskIsFree(b.masks[g], false)
    requires CurMask(b.masks[g], false) != mask || FirstEmpty(b, First(g), Limit(g)) == Limit(g)
    ensures forall i: nat | i < NUM_FILTERS && Group(i) == g :: !Available(b, installed, mask, i)
  {
    ReadBack(b, installed, g);
    var u :| First(g) <= u < Limit(g) && b.filters[u] != ZERO;
    forall i: nat | i < NUM_FILTERS && Group(i) == g
      ensures !Available(b, installed, mask, i)
    {
      if CurMask(b.masks[g], false) != mask {
        assert installed[u] != mask;
      } else {
        assert b.filters[i] != ZERO;
      }
    }
  }

  /** What set_rx_filter does to bank b, ending with result ret. */
  ghost predicate Allocates(b: Bank, installed: seq<bv32>, id: bv32, mask: bv32, r: SetResult)
    requires AllocOk(b, installed)
  {
    if r.ret == -1 then r.bank == b && forall j :: !Available(b, installed, mask, j)
    else 0 <= r.ret && Available(b, installed, mask, r.ret)
         && (forall j | Available(b, installed, mask, j) :: r.ret <= j)
         && r.bank == Install(b, r.ret, id, false, if AllEmpty(b, Group(r.ret)) then mask else 0)
  }

  lemma TakesSlot(b: Bank, installed: seq<bv32>, id: bv32, mask: bv32, g: nat)
    requires AllocOk(b, installed) && Supported(id, mask) && g < 2
    requires MaskIsFree(b.masks[g], false)
          || (CurMask(b.masks[g], false) == mask && FirstEmpty(b, First(g), Limit(g)) < Limit(g))
    requires forall j | Available(b, installed, mask, j) :: g <= Group(j)
    ensures Allocates(b, installed, id, mask, SetFrom(b, g, id, false, mask))
  {
    ReadBack(b, installed, g);
    if MaskIsFree(b.masks[g], false) {
      assert Available(b, installed, mask, First(g));
    } else {
      assert !AllEmpty(b, g);
      assert Available(b, installed, mask, FirstEmpty(b, First(g), Limit(g)));
    }
  }

  /** set_rx_filter from group g on, when the groups before g are of no use. */
  lemma {:induction false} SetFromMeaning(b: Bank, installed: seq<bv32>, id: bv32, mask: bv32, g: nat)
    requires AllocOk(b, installed) && Supported(id, mask) && g <= 2
    requires forall j | Available(b, installed, mask, j) :: g <= Group(j)
    ensures Allocates(b, installed, id, mask, SetFrom(b, g, id, false, mask))
    decreases 2 - g
  {
    if g < 2 {
      if MaskIsFree(b.masks[g], false)
         || (CurMask(b.masks[g], false) == mask && FirstEmpty(b, First(g), Limit(g)) < Limit(g)) {
        TakesSlot(b, installed, id, mask, g);
      } else {
        PassedOver(b, installed, mask, g);
        SetFromMeaning(b, installed, id, mask, g + 1);
      }
    }
  }

  /** set_rx_filter takes the first slot that is available, touches no other slot, keeps the bank in
      order, and fails exactly when no slot is available. */
  lemma SetAllocates(b: Bank, installed: seq<bv32>, id: bv32, mask: bv32)
    requires AllocOk(b, installed) && Supported(id, mask)
    ensures var r := SetRx(b, id, false, mask);
            && (r.ret == -1 <==> forall j :: !Available(b, installed, mask, j))
            && (r.ret == -1 ==> r.bank == b)
            && (r.ret != -1 ==>
                  && 0 <= r.ret && Available(b, installed, mask, r.ret)
                  && (forall j | Available(b, installed, mask, j) :: r.ret <= j)
                  && r.bank.filters == b.filters[r.ret := IdRegs(id, false)]
                  && AllocOk(r.bank, installed[r.ret := mask]))
  {
    SetFromMeaning(b, installed, id, mask, 0);
    var r := SetRx(b, id, false, mask);
    if r.ret != -1 {
      InstallKeeps(b, installed, id, mask, r.ret);
    }
  }

  /** clear_rx_filter frees one slot, and the mask with the last slot of its group. */
  lemma ClearFrees(b: Bank, installed: seq<bv32>, slot: nat)
    requires AllocOk(b, installed) && slot < NUM_FILTERS
    ensures ClearRx(b, slot).filters == b.filters[slot := ZERO]
    ensures AllocOk(ClearRx(b, slot), installed[slot := 0])
  {
    var g, c := Group(slot), ClearRx(b, slot);
    var u := FirstUsed(b.(filters := b.filters[slot := ZERO]), First(g), Limit(g));
    OtherGroup(b, installed, c, installed[slot := 0], 1 - g);
    if u == Limit(g) {
      assert AllEmpty(c, g);
    } else {
      assert c.filters[u] != ZERO && b.filters[u] != ZERO;
      assert !AllEmpty(c, g) && !AllEmpty(b, g);
    }
    forall i | First(g) <= i < Limit(g) && c.filters[i] != ZERO
      ensures 1 <= installed[slot := 0][i] <= 0xFF && c.masks[g] == MaskRegs(installed[slot := 0][i], false)
    {
      assert i != slot && b.filters[i] != ZERO;
    }
  }

  // ------------------------------------------------------------------- runs

  datatype Op = Set(id: bv32, mask: bv32) | Clear(slot: nat)

  predicate LegalOp(op: Op) {
    InBank(op) && (op.Set? ==> Supported(op.id, op.mask))
  }

  predicate InBank(op: Op) {
    op.Clear? ==> op.slot < NUM_FILTERS
  }

  /** The registers, and for each slot the mask and the identifier of the set that returned it. */
  datatype State = State(bank: Bank, installed: seq<bv32>, ids: seq<bv32>)

  predicate Sized(s: State) {
    |s.bank.filters| == NUM_FILTERS && |s.bank.masks| == 2 && |s.installed| == NUM_FILTERS && |s.ids| == NUM_FILTERS
  }

  lemma SetFromSized(b: Bank, g: nat, id: bv32, mask: bv32)
    requires |b.filters| == NUM_FILTERS && |b.masks| == 2 && g <= 2
    ensures var r := SetFrom(b, g, id, false, mask).bank; |r.filters| == NUM_FILTERS && |r.masks| == 2
    decreases 2 - g
  {
  }

  function Do(s: State, op: Op): (r: State)
    requires Sized(s) && InBank(op)
    ensures Sized(r)
  {
    match op
    case Clear(slot) => State(ClearRx(s.bank, slot), s.installed[slot := 0], s.ids[slot := 0])
    case Set(id, mask) =>
      SetFromSized(s.bank, 0, id, mask);
      var r := SetRx(s.bank, id, false, mask);
      if 0 <= r.ret < NUM_FILTERS
      then State(r.bank, s.installed[r.ret := mask], s.ids[r.ret := id])
      else State(r.bank, s.installed, s.ids)
  }

  function Run(ops: seq<Op>): (s: State)
    requires forall i | 0 <= i < |ops| :: InBank(ops[i])
    ensures Sized(s)
  {
    if ops == [] then State(EMPTY_BANK, [0, 0, 0, 0, 0, 0], [0, 0, 0, 0, 0, 0])
    else Do(Run(ops[..|ops| - 1]), ops[|ops| - 1])
  }

  /** From zeroed registers, every run of sets and clears keeps the bank in order: a mask is zero
      exactly when its group is empty, and the mask of a filter in use is the one it was set with. */
  lemma {:induction false} AllocatorInvariant(ops: seq<Op>)
    requires forall i | 0 <= i < |ops| :: InBank(ops[i]) && LegalOp(ops[i])
    ensures AllocOk(Run(ops).bank, Run(ops).installed)
  {
    if ops == [] {
      assert AllEmpty(EMPTY_BANK, 0) && AllEmpty(EMPTY_BANK, 1);
    } else {
      var n := |ops| - 1;
      var p := Run(ops[..n]);
      AllocatorInvariant(ops[..n]);
      match ops[n]
      case Set(id, mask) => SetAllocates(p.bank, p.installed, id, mask);
      case Clear(slot) => ClearFrees(p.bank, p.installed, slot);
    }
  }

  /** Every filter in use holds the identifier it was set with. */
  ghost predicate IdsAgree(s: State)
    requires Sized(s)
  {
    forall i | 0 <= i < NUM_FILTERS && s.bank.filters[i] != ZERO ::
      s.ids[i] <= 0x7FF && s.bank.filters[i] == IdRegs(s.ids[i], false)
  }

  lemma {:induction false} IdsOfRun(ops: seq<Op>)
    requires forall i | 0 <= i < |ops| :: InBank(ops[i]) && LegalOp(ops[i])
    ensures IdsAgree(Run(ops))
  {
    if ops != [] {
      var n := |ops| - 1;
      var p := Run(ops[..n]);
      IdsOfRun(ops[..n]);
      AllocatorInvariant(ops[..n]);
      match ops[n]
      case Set(id, mask) => SetAllocates(p.bank, p.installed, id, mask);
      case Clear(slot) => ClearFrees(p.bank, p.installed, slot);
    }
  }

  lemma LiveMask(b: Bank, installed: seq<bv32>, i: nat)
    requires AllocOk(b, installed) && i < NUM_FILTERS && b.filters[i] != ZERO
    ensures b.masks[Group(i)] == MaskRegs(installed[i], false)
  {
    if i < 2 {
      assert MasksAgree(b, installed, 0) && First(0) <= i < Limit(0);
    } else {
      assert MasksAgree(b, installed, 1) && First(1) <= i < Limit(1);
    }
  }

  /** x and id agree on the mask. */
  predicate Agree(x: bv32, id: bv32, mask: bv32) {
    (x ^ id) & mask == 0
  }

  /** Of the standard identifiers the registers accept those that agree with id on the mask. */
  ghost predicate AcceptsJust(m: IdBytes, f: IdBytes, id: bv32, mask: bv32) {
    forall x: bv32 | x <= 0x7FF :: Accepts(m, f, IdRegs(x, false)) <==> Agree(x, id, mask)
  }

  lemma RegistersAccept(id: bv32, mask: bv32)
    requires id <= 0x7FF
    ensures AcceptsJust(MaskRegs(mask, false), IdRegs(id, false), id, mask)
  {
    forall x: bv32 | x <= 0x7FF
      ensures Accepts(MaskRegs(mask, false), IdRegs(id, false), IdRegs(x, false)) <==> Agree(x, id, mask)
    {
      AcceptsMasked(x, id, mask);
    }
  }

  /** Over every run each filter in use accepts, of the standard identifiers, exactly those that
      agree with its own on its own mask. */
  lemma LiveFiltersAccept(ops: seq<Op>, i: nat)
    requires forall n | 0 <= n < |ops| :: InBank(ops[n]) && LegalOp(ops[n])
    requires i < NUM_FILTERS && Run(ops).bank.filters[i] != ZERO
    ensures var s := Run(ops);
            AcceptsJust(s.bank.masks[Group(i)], s.bank.filters[i], s.ids[i], s.installed[i])
  {
    AllocatorInvariant(ops);
    IdsOfRun(ops);
    var s := Run(ops);
    LiveMask(s.bank, s.installed, i);
    RegistersAccept(s.ids[i], s.installed[i]);
  }

  lemma AcceptsMasked(x: bv32, id: bv32, mask: bv32)
    requires x <= 0x7FF && id <= 0x7FF
    ensures Accepts(MaskRegs(mask, false), IdRegs(id, false), IdRegs(x, false)) <==> (x ^ id) & mask == 0
  {
    BelowLimit(x);
    BelowLimit(id);
    FilterMeaning(x, id, mask, false);
  }

  lemma BelowLimit(x: bv32)
    requires x <= 0x7FF
    ensures CanFrames.InRange(x, false)
  {
  }

  // -------------------------------------- sets of either format, into any registers

  /** A set leaves everything alone but one slot, which gets the identifier, and the mask of that
      slot's group, which is written only if it read as free and the mask is not zero. */
  ghost predicate Writes(b: Bank, id: bv32, exide: bool, mask: bv32, r: SetResult) {
    && IsBank(b) && IsBank(r.bank)
    && if r.ret == -1 then r.bank == b
       else 0 <= r.ret < NUM_FILTERS
            && r.bank.filters == b.filters[r.ret := IdRegs(id, exide)]
            && var g := Group(r.ret);
               && r.bank.masks[1 - g] == b.masks[1 - g]
               && r.bank.masks[g] == (if MaskIsFree(b.masks[g], exide) && mask != 0 then MaskRegs(mask, exide) else b.masks[g])
               && (!MaskIsFree(b.masks[g], exide) ==> CurMask(b.masks[g], exide) == mask && b.filters[r.ret] == ZERO)
  }

  lemma {:induction false} SetFromWrites(b: Bank, g: nat, id: bv32, exide: bool, mask: bv32)
    requires IsBank(b) && g <= 2
    ensures Writes(b, id, exide, mask, SetFrom(b, g, id, exide, mask))
    decreases 2 - g
  {
    if g < 2 && !MaskIsFree(b.masks[g], exide)
       && !(CurMask(b.masks[g], exide) == mask && FirstEmpty(b, First(g), Limit(g)) < Limit(g)) {
      SetFromWrites(b, g + 1, id, exide, mask);
    }
  }

  /** A set with a mask that is not zero, into a group whose mask reads as free: of the identifiers of
      its format the registers then accept exactly those that agree with it on the mask. */
  lemma SetAccepts(b: Bank, id: bv32, exide: bool, mask: bv32, x: bv32)
    requires IsBank(b) && mask != 0 && InRange(id, exide) && InRange(x, exide)
    ensures var r := SetRx(b, id, exide, mask);
            && Writes(b, id, exide, mask, r)
            && (r.ret != -1 && MaskIsFree(b.masks[Group(r.ret)], exide) ==>
                  (Accepts(r.bank.masks[Group(r.ret)], r.bank.filters[r.ret], IdRegs(x, exide))
                   <==> (x ^ id) & mask == 0))
  {
    SetFromWrites(b, 0, id, exide, mask);
    FilterMeaning(x, id, mask, exide);
  }

  /** Clearing a slot, whatever the registers hold: the slot is zeroed, and its group's mask too if
      the whole group is then empty; nothing else changes. */
  lemma ClearWrites(b: Bank, slot: nat)
    requires IsBank(b) && slot < NUM_FILTERS
    ensures var r, g := ClearRx(b, slot), Group(slot);
            && r.filters == b.filters[slot := ZERO]
            && r.masks[1 - g] == b.masks[1 - g]
            && r.masks[g] == if AllEmpty(r, g) then ZERO else b.masks[g]
  {
    var g := Group(slot);
    var c := b.(filters := b.filters[slot := ZERO]);
    if FirstUsed(c, First(g), Limit(g)) < Limit(g) {
      assert c.filters[FirstUsed(c, First(g), Limit(g))] != ZERO;
      assert !AllEmpty(ClearRx(b, slot), g);
    } else {
      assert AllEmpty(ClearRx(b, slot), g);
    }
  }

  /** Of an extended mask the driver recognises bits 25..18 and 7..0. */
  lemma ExtendedMaskReadsBack(mask: bv32)
    ensures CurMask(MaskRegs(mask, true), true) == mask & 0x3FC_00FF
    ensures MaskIsFree(MaskRegs(mask, true), true) == (mask & 0x3FC_00FF == 0)
  {
  }

  /** Outside Supported the registers do not tell the driver enough: installed into an empty bank,
      a standard filter is in use with the mask it was given exactly when its identifier has
      one of its 11 bits set and the mask is 1..0xFF. */
  lemma SupportedIff(id: bv32, mask: bv32)
    ensures var r := SetRx(EMPTY_BANK, id, false, mask);
            && r.ret == 0
            && (r.bank.filters[0] != ZERO && mask != 0 && CurMask(r.bank.masks[0], false) == mask
                <==> id & 0x7FF != 0 && 1 <= mask <= 0xFF)
  {
    ZeroMask();
    MaskReadsLow(mask);
    IdInUse(id);
    LowBits(mask);
  }

  // ----------------------------------------------- when live filters are safe

  /** A group whose mask reads as free has no filter in use. */
  ghost predicate LiveSafe(b: Bank) {
    && IsBank(b)
    && (MaskIsFree(b.masks[0], false) ==> AllEmpty(b, 0))
    && (MaskIsFree(b.masks[1], false) ==> AllEmpty(b, 1))
  }

  /** What a set from group g on may do: nothing, or write one slot that was empty, with the
      group's mask reading as in use afterwards. */
  ghost predicate TakesEmpty(b: Bank, r: SetResult) {
    if r.ret == -1 then r.bank == b
    else 0 <= r.ret < NUM_FILTERS && IsBank(b) && IsBank(r.bank)
         && b.filters[r.ret] == ZERO
         && (forall i | 0 <= i < NUM_FILTERS && i != r.ret :: r.bank.filters[i] == b.filters[i])
         && r.bank.masks[1 - Group(r.ret)] == b.masks[1 - Group(r.ret)]
         && !MaskIsFree(r.bank.masks[Group(r.ret)], false)
  }

  /** A group that reads as free is empty, and its mask reads as in use once it is written. */
  lemma FreeGroupSafe(b: Bank, g: nat, id: bv32, mask: bv32)
    requires LiveSafe(b) && g < 2 && MaskIsFree(b.masks[g], false) && mask & 0xFF != 0
    ensures TakesEmpty(b, SetResult(Install(b, First(g), id, false, mask), First(g)))
  {
    assert b.filters[First(g)] == ZERO;
    MaskReadsLow(mask);
    LowOfZero(mask);
  }

  lemma {:induction false} SetFromSafe(b: Bank, g: nat, id: bv32, mask: bv32)
    requires LiveSafe(b) && g <= 2 && mask & 0xFF != 0
    ensures TakesEmpty(b, SetFrom(b, g, id, false, mask))
    decreases 2 - g
  {
    if g < 2 {
      if MaskIsFree(b.masks[g], false) {
        FreeGroupSafe(b, g, id, mask);
      } else if !(CurMask(b.masks[g], false) == mask && FirstEmpty(b, First(g), Limit(g)) < Limit(g)) {
        SetFromSafe(b, g + 1, id, mask);
      }
    }
  }

  lemma LowOfZero(mask: bv32)
    requires mask & 0xFF != 0
    ensures mask != 0
  {
  }

  lemma SetKeepsSafe(b: Bank, r: SetResult)
    requires LiveSafe(b) && TakesEmpty(b, r)
    ensures LiveSafe(r.bank)
  {
    if r.ret != -1 {
      var o := 1 - Group(r.ret);
      assert AllEmpty(b, o) ==> AllEmpty(r.bank, o);
    }
  }

  lemma ClearKeepsSafe(b: Bank, slot: nat)
    requires LiveSafe(b) && slot < NUM_FILTERS
    ensures LiveSafe(ClearRx(b, slot))
  {
    var g, c := Group(slot), ClearRx(b, slot);
    assert AllEmpty(b, 1 - g) ==> AllEmpty(c, 1 - g);
    assert AllEmpty(b, g) ==> AllEmpty(c, g);
  }

  predicate LowMasks(ops: seq<Op>) {
    forall i | 0 <= i < |ops| :: InBank(ops[i]) && (ops[i].Set? ==> ops[i].mask & 0xFF != 0)
  }

  /** In every run in which each mask has one of its low eight bits set, however wide the masks
      and whatever the identifiers, no set touches a filter in use. */
  lemma {:induction false} LowMasksAreSafe(ops: seq<Op>)
    requires LowMasks(ops)
    ensures LiveSafe(Run(ops).bank)
    ensures forall id, mask: bv32 | mask & 0xFF != 0 ::
              TakesEmpty(Run(ops).bank, SetRx(Run(ops).bank, id, false, mask))
  {
    if ops == [] {
      assert AllEmpty(EMPTY_BANK, 0) && AllEmpty(EMPTY_BANK, 1);
    } else {
      var n := |ops| - 1;
      var p := Run(ops[..n]);
      LowMasksAreSafe(ops[..n]);
      match ops[n]
      case Clear(slot) => ClearKeepsSafe(p.bank, slot);
      case Set(id, mask) =>
        assert TakesEmpty(p.bank, SetRx(p.bank, id, false, mask));
        SetKeepsSafe(p.bank, SetRx(p.bank, id, false, mask));
    }
    forall id, mask: bv32 | mask & 0xFF != 0
      ensures TakesEmpty(Run(ops).bank, SetRx(Run(ops).bank, id, false, mask))
    {
      SetFromSafe(Run(ops).bank, 0, id, mask);
    }
  }

  /** And the condition is exact: after the first set of a run, with an identifier that has one of
      its 11 bits set, the next set, whatever it is, takes the slot that is in use if and only
      if none of the low eight bits of the mask is set. */
  lemma NextSetOverwritesIff(id: bv32, mask: bv32, id': bv32, exide': bool, mask': bv32)
    requires id & 0x7FF != 0
    ensures var b := SetRx(EMPTY_BANK, id, false, mask).bank;
            var r := SetRx(b, id', exide', mask');
            && b.filters[0] == IdRegs(id, false) != ZERO
            && (r.ret == 0 <==> mask & 0xFF == 0)
            && (r.ret == 0 ==> r.bank.filters[0] == IdRegs(id', exide'))
  {
    ZeroMask();
    IdInUse(id);
    var b := SetRx(EMPTY_BANK, id, false, mask).bank;
    assert b == Install(EMPTY_BANK, 0, id, false, mask);
    var m := b.masks[0];
    assert MaskEid(m) == 0 && CurMask(m, false) == mask & 0xFF by {
      MaskReadsLow(mask);
      if mask == 0 { assert (0 as bv32) & 0xFF == 0; }
    }
    FreeInEitherFormat(m, exide');
  }

  /** Whether a mask reads as free does not depend on the format of the new filter. */
  lemma FreeInEitherFormat(m: IdBytes, exide: bool)
    ensures MaskIsFree(m, exide) <==> CurMask(m, false) == 0 && MaskEid(m) == 0
  {
  }

  /** With mask 0x100 a second set takes the slot of the first, whose filter is gone. */
  lemma WideMaskOverwrites()
    ensures var b := SetRx(EMPTY_BANK, 1, false, 0x100).bank;
            var r := SetRx(b, 2, false, 0x100);
            r.ret == 0 && b.filters[0] == IdRegs(1, false) != ZERO && r.bank.filters[0] == IdRegs(2, false)
  {
    ZeroMask();
    MaskReadsLow(0x100);
    IdInUse(1);
    assert (0x100 as bv32) & 0xFF == 0;
  }
}
