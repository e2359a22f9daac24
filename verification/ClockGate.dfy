/**
 The gate in front of the clock controller's register frame: which reads and writes of a
 client reach the hardware. The register table and the device numbers come from a platform
 library that is not part of this model, so they are parameters.
 */
module ClockGate {
  import opened Words

  const PAGE_SIZE: nat := 4096
  const WORD: nat := 4
  const WORDS: nat := 1024
  const PLLP_BASE_0: nat := 0xa0
  const PLLP_MISC_0: nat := 0xac

  /** The type of a register; `Unknown` is a type number outside the table of handlers. */
  datatype Register =
    | Reserved
    | Pll
    | EnbRst(bank: nat)
    | Source(clock: nat)
    | Misc
    | Unknown

  datatype Range = Range(start: nat, end: nat)

  predicate Within(a: nat, r: Range) {
    r.start <= a < r.end
  }

  /** What the platform headers define. */
  datatype Platform = Platform(
    table: seq<Register>,
    devices: set<nat>,    // UARTD, SDMMC4, USB2 and USB3
    clocks: set<nat>,     // the sources of UARTD and SDMMC4
    pllc: Range,
    pllm: Range,
    pllp: Range,
    pllp1: Range,
    pllpReshift: nat)

  datatype Access = Read(addr: nat) | Write(addr: nat, value: bv32)

  // ---------------------------------------------------------- the decisions

  predicate AllowPll(p: Platform, a: Access) {
    if Within(a.addr, p.pllc) || Within(a.addr, p.pllm) then true
    else if Within(a.addr, p.pllp) || Within(a.addr, p.pllp1) || a.addr == p.pllpReshift then
      !((a.addr == PLLP_BASE_0 || a.addr == PLLP_MISC_0) && a.Write?)
    else true
  }

  /** Every set bit of the value names an allowed device of the bank. */
  ghost predicate OnlyAllowedBits(p: Platform, bank: nat, value: bv32) {
    forall k | 0 <= k < 32 :: HasBit(value, k) ==> bank * 32 + k in p.devices
  }

  predicate AllowSource(p: Platform, clock: nat, a: Access) {
    clock in p.clocks || a.Read?
  }

  /** What handle_register lets through. */
  ghost predicate Allowed(p: Platform, a: Access)
    requires |p.table| == WORDS
  {
    a.addr < PAGE_SIZE && a.addr % WORD == 0 &&
    match p.table[a.addr / WORD]
    case Reserved => false
    case Unknown => false
    case Pll => AllowPll(p, a)
    case EnbRst(bank) => a.Write? ==> OnlyAllowedBits(p, bank, a.value)
    case Source(clock) => AllowSource(p, clock, a)
    case Misc => a.Read?
  }

  ghost function Apply(p: Platform, frame: seq<bv32>, a: Access): (r: seq<bv32>)
    requires |p.table| == WORDS && |frame| == WORDS
    ensures |r| == WORDS
  {
    if a.Write? && Allowed(p, a) then frame[a.addr / WORD := a.value] else frame
  }

  /** What gen_fwd_read returns: 0 for a refused access. */
  ghost function Answer(p: Platform, frame: seq<bv32>, a: Access): bv32
    requires |p.table| == WORDS && |frame| == WORDS
  {
    if Allowed(p, a) then frame[a.addr / WORD] else 0
  }

  // -------------------------------------- what reaches the hardware, register by register

  /** Reads of every register but the reserved ones and those of unknown type are answered. */
  predicate Answered(p: Platform, addr: nat)
    requires |p.table| == WORDS
  {
    addr < PAGE_SIZE && addr % WORD == 0
    && !p.table[addr / WORD].Reserved? && !p.table[addr / WORD].Unknown?
  }

  /** The platform places the base and misc words of PLLP in the range of PLLP and of no PLL that
      is tested before it. */
  predicate PllpGuarded(p: Platform, addr: nat) {
    && !Within(addr, p.pllc) && !Within(addr, p.pllm)
    && (Within(addr, p.pllp) || Within(addr, p.pllp1) || addr == p.pllpReshift)
  }

  /** No run of accesses can change this word. */
  ghost predicate Protected(p: Platform, w: nat)
    requires |p.table| == WORDS && w < WORDS
  {
    match p.table[w]
    case Reserved => true
    case Unknown => true
    case Misc => true
    case Source(clock) => clock !in p.clocks
    case Pll => (w * WORD == PLLP_BASE_0 || w * WORD == PLLP_MISC_0) && PllpGuarded(p, w * WORD)
    case EnbRst(bank) => false
  }

  /** The access is a write to word w that the word's type lets through. */
  ghost predicate Stores(p: Platform, a: Access, w: nat)
    requires |p.table| == WORDS && w < WORDS
  {
    && a.Write? && a.addr == w * WORD
    && !Protected(p, w)
    && (p.table[w].EnbRst? ==> OnlyAllowedBits(p, p.table[w].bank, a.value))
  }

  /** The decisions of the handlers, in these terms. */
  lemma AllowedMeans(p: Platform, a: Access)
    requires |p.table| == WORDS
    ensures a.Read? ==> (Allowed(p, a) <==> Answered(p, a.addr))
    ensures a.Write? ==> (Allowed(p, a) <==> a.addr < PAGE_SIZE && a.addr % WORD == 0 && Stores(p, a, a.addr / WORD))
    ensures forall w | 0 <= w < WORDS && Stores(p, a, w) :: w == a.addr / WORD && Allowed(p, a)
  {
    forall w | 0 <= w < WORDS && Stores(p, a, w)
      ensures w == a.addr / WORD && Allowed(p, a)
    {
      assert w * WORD / WORD == w;
    }
  }

  // ------------------------------------------------------- the bit-scan loop

  /** The position of the lowest set bit. */
  method CountTrailingZeros(value: bv32) returns (pos: nat)
    requires value != 0
    ensures pos < 32 && HasBit(value, pos)
    ensures forall k | 0 <= k < pos :: !HasBit(value, k)
  {
    pos := 0;
    while pos < 32 && !HasBit(value, pos)
      invariant pos <= 32
      invariant forall k | 0 <= k < pos :: !HasBit(value, k)
    {
      pos := pos + 1;
    }
    if pos == 32 {
      NonzeroHasBit(value);
    }
  }

  /** allow_enbrst on a write: 32 rounds are enough to look at every set bit. */
  method AllowEnbRst(p: Platform, bank: nat, value: bv32) returns (allow: bool)
    ensures allow <==> OnlyAllowedBits(p, bank, value)
  {
    var rest := value;
    var i := 0;
    ghost var low := 0;
    while rest != 0 && i < 32
      invariant 0 <= i <= 32 && i <= low
      invariant forall k | 0 <= k < 32 :: HasBit(rest, k) <==> low <= k && HasBit(value, k)
      invariant forall k | 0 <= k < 32 && k < low :: HasBit(value, k) ==> bank * 32 + k in p.devices
      decreases 32 - i
    {
      var pos := CountTrailingZeros(rest);
      if bank * 32 + pos !in p.devices {
        return false;
      }
      forall k | 0 <= k < 32
        ensures HasBit(Minus(rest, Bit(pos)), k) <==> k != pos && HasBit(rest, k)
      {
        SetAndClearBit(rest, pos, k);
      }
      rest := Minus(rest, Bit(pos));
      low := pos + 1;
      i := i + 1;
    }
    if rest == 0 {
      forall k | 0 <= k < 32
        ensures !HasBit(rest, k)
      {
        NoBitInZero(k);
      }
    }
    allow := true;
  }

  // ------------------------------------------------------------- the frame

  class Gate {
    const platform: Platform
    const frame: array<bv32>

    constructor (platform: Platform, frame: array<bv32>)
      ensures this.platform == platform && this.frame == frame
    {
      this.platform := platform;
      this.frame := frame;
    }

    ghost predicate Valid() {
      |platform.table| == WORDS && frame.Length == WORDS
    }

    method Handler(reg: Register, a: Access) returns (allow: bool)
      requires Valid() && a.addr < PAGE_SIZE && a.addr % WORD == 0 && reg == platform.table[a.addr / WORD]
      requires !reg.Reserved? && !reg.Unknown?
      ensures allow <==> Allowed(platform, a)
    {
      match reg
      case Pll => allow := AllowPll(platform, a);
      case Source(clock) => allow := AllowSource(platform, clock, a);
      case Misc => allow := a.Read?;
      case EnbRst(bank) =>
        allow := true;
        if a.Write? {
          allow := AllowEnbRst(platform, bank, a.value);
        }
    }

    /** handle_register; `value` is the word the caller's pointer refers to. */
    method HandleRegister(a: Access, value: bv32) returns (value': bv32)
      requires Valid() && a.addr < PAGE_SIZE && (a.Write? ==> value == a.value)
      modifies frame
      ensures frame[..] == Apply(platform, old(frame[..]), a)
      ensures value' == if a.Read? && Allowed(platform, a) then old(frame[a.addr / WORD]) else value
      ensures forall w | 0 <= w < WORDS :: frame[w] == if Stores(platform, a, w) then a.value else old(frame[w])
      ensures a.Read? ==> value' == if Answered(platform, a.addr) then frame[a.addr / WORD] else value
    {
      value' := value;
      AllowedMeans(platform, a);
      if a.addr % WORD != 0 {
        return;
      }
      var index := a.addr / WORD;
      var reg := platform.table[index];
      if reg.Unknown? || reg.Reserved? {
        return;
      }
      var allow := Handler(reg, a);
      if allow {
        if a.Read? {
          value' := frame[index];
        } else {
          frame[index] := value;
        }
      }
    }

    method GenFwdRead(addr: nat) returns (value: bv32)
      requires Valid()
      modifies frame
      ensures frame[..] == old(frame[..])
      ensures value == Answer(platform, frame[..], Read(addr))
      ensures value == if Answered(platform, addr) then frame[addr / WORD] else 0
    {
      if addr >= PAGE_SIZE {
        return 0;
      }
      value := HandleRegister(Read(addr), 0);
    }

    method GenFwdWrite(addr: nat, value: bv32)
      requires Valid()
      modifies frame
      ensures frame[..] == Apply(platform, old(frame[..]), Write(addr, value))
      ensures forall w | 0 <= w < WORDS ::
                frame[w] == if Stores(platform, Write(addr, value), w) then value else old(frame[w])
    {
      if addr >= PAGE_SIZE {
        return;
      }
      var unused := HandleRegister(Write(addr, value), value);
    }
  }

  // ------------------------------------------------------------------- runs

  ghost function Run(p: Platform, frame: seq<bv32>, accesses: seq<Access>): (r: seq<bv32>)
    requires |p.table| == WORDS && |frame| == WORDS
    ensures |r| == WORDS
    decreases |accesses|
  {
    if accesses == [] then frame
    else Apply(p, Run(p, frame, accesses[..|accesses| - 1]), accesses[|accesses| - 1])
  }

  lemma AccessKeeps(p: Platform, frame: seq<bv32>, a: Access, w: nat)
    requires |p.table| == WORDS && |frame| == WORDS && w < WORDS
    ensures Protected(p, w) ==> Apply(p, frame, a)[w] == frame[w]
    ensures p.table[w].EnbRst? && Apply(p, frame, a)[w] != frame[w] ==>
              OnlyAllowedBits(p, p.table[w].bank, Apply(p, frame, a)[w])
  {
    if a.Write? && Allowed(p, a) && a.addr / WORD == w {
      assert a.addr == w * WORD;
    }
  }

  /** Over every run: protected words keep their value, and an enable or reset word either keeps
      its value or holds a value made of allowed bits. */
  lemma {:induction false} GateHolds(p: Platform, frame: seq<bv32>, accesses: seq<Access>, w: nat)
    requires |p.table| == WORDS && |frame| == WORDS && w < WORDS
    ensures var r := Run(p, frame, accesses);
            && (Protected(p, w) ==> r[w] == frame[w])
            && (p.table[w].EnbRst? ==> r[w] == frame[w] || OnlyAllowedBits(p, p.table[w].bank, r[w]))
    decreases |accesses|
  {
    if accesses != [] {
      var n := |accesses| - 1;
      GateHolds(p, frame, accesses[..n], w);
      AccessKeeps(p, Run(p, frame, accesses[..n]), accesses[n], w);
    }
  }

  /** A word can be changed by some write exactly when it is not protected (and, for an enable or
      reset word, when the value asked for has only allowed bits). */
  lemma ProtectedIff(p: Platform, w: nat, value: bv32)
    requires |p.table| == WORDS && w < WORDS
    requires p.table[w].EnbRst? ==> OnlyAllowedBits(p, p.table[w].bank, value)
    ensures Allowed(p, Write(w * WORD, value)) <==> !Protected(p, w)
  {
    assert w * WORD / WORD == w;
  }

  ghost predicate NeverChanges(p: Platform, w: nat)
    requires |p.table| == WORDS && w < WORDS
  {
    forall frame: seq<bv32>, accesses | |frame| == WORDS :: Run(p, frame, accesses)[w] == frame[w]
  }

  /** The words no run can change, whatever the frame holds, are exactly the protected ones: an
      enable or reset word can at least be cleared. */
  lemma NeverChangesIff(p: Platform, w: nat)
    requires |p.table| == WORDS && w < WORDS
    ensures NeverChanges(p, w) <==> Protected(p, w)
  {
    if Protected(p, w) {
      forall frame: seq<bv32>, accesses | |frame| == WORDS
        ensures Run(p, frame, accesses)[w] == frame[w]
      {
        GateHolds(p, frame, accesses, w);
      }
    } else {
      var frame := seq(WORDS, _ => 1 as bv32);
      var a := Write(w * WORD, 0);
      forall k | 0 <= k < 32
        ensures !HasBit(0, k)
      {
        NoBitInZero(k);
      }
      ProtectedIff(p, w, 0);
      assert [a][..0] == [];
      assert Run(p, frame, []) == frame;
      assert Run(p, frame, [a]) == Apply(p, frame, a);
      assert w * WORD / WORD == w;
      assert Run(p, frame, [a])[w] == 0;
    }
  }

  // -------------------------------------------------------------- the last write

  /** What the last write of the run that word w lets through left in it. */
  ghost function LastStored(p: Platform, accesses: seq<Access>, w: nat, initial: bv32): bv32
    requires |p.table| == WORDS && w < WORDS
  {
    if accesses == [] then initial
    else if Stores(p, accesses[|accesses| - 1], w) then accesses[|accesses| - 1].value
    else LastStored(p, accesses[..|accesses| - 1], w, initial)
  }

  /** Over every run each word holds the value of the last write to it that its type lets through,
      or its initial value. */
  lemma {:induction false} LastWriteStays(p: Platform, frame: seq<bv32>, accesses: seq<Access>, w: nat)
    requires |p.table| == WORDS && |frame| == WORDS && w < WORDS
    ensures Run(p, frame, accesses)[w] == LastStored(p, accesses, w, frame[w])
  {
    if accesses != [] {
      var n := |accesses| - 1;
      LastWriteStays(p, frame, accesses[..n], w);
      AllowedMeans(p, accesses[n]);
    }
  }

  /** A read is answered with that value, or with 0 if the register's type answers no reads. */
  lemma ReadsLastWrite(p: Platform, frame: seq<bv32>, accesses: seq<Access>, addr: nat)
    requires |p.table| == WORDS && |frame| == WORDS
    ensures Answer(p, Run(p, frame, accesses), Read(addr))
         == if Answered(p, addr) then LastStored(p, accesses, addr / WORD, frame[addr / WORD]) else 0
  {
    AllowedMeans(p, Read(addr));
    if Answered(p, addr) {
      LastWriteStays(p, frame, accesses, addr / WORD);
    }
  }

  /** A client that writes and reads back, through the two entry points of the component. */
  method WriteThenRead(gate: Gate, addr: nat, value: bv32) returns (back: bv32)
    requires gate.Valid()
    modifies gate.frame
    ensures addr < PAGE_SIZE && addr % WORD == 0 && Stores(gate.platform, Write(addr, value), addr / WORD) ==> back == value
    ensures forall w | 0 <= w < WORDS && addr != w * WORD :: gate.frame[w] == old(gate.frame[w])
  {
    gate.GenFwdWrite(addr, value);
    back := gate.GenFwdRead(addr);
  }
}
