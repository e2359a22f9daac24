/**
 Bit timing (section 10 of Part B of the Bosch CAN Specification 2.0): the search for the
 number of time quanta per bit, its division into segments, and the CNF registers.
 */
module CanBitTiming {
  const NS_IN_S: nat := 1_000_000_000
  const OSC_FREQ: nat := 20_000_000
  const TIME_PER_TICK: nat := DivRound(NS_IN_S, OSC_FREQ)
  const MIN_TQ_NUM: nat := 8
  const MAX_TQ_NUM: nat := 25
  const SAMPLE_POINT: nat := 30

  /** Division rounded to the nearest integer, halves up. */
  function DivRound(n: nat, d: nat): nat
    requires 0 < d
  {
    (n + d / 2) / d
  }

  /** How far the quantum is from a multiple of the tick when a bit has i quanta. */
  function TqError(bitTime: nat, i: nat): nat
    requires 0 < i
  {
    var error := DivRound(bitTime, i) % TIME_PER_TICK;
    if 2 * error > TIME_PER_TICK then TIME_PER_TICK - error else error
  }

  /** The error is the distance from the quantum to the nearest multiple of the tick. */
  lemma TqErrorIsDistance(bitTime: nat, i: nat, k: nat)
    requires 0 < i
    ensures var t, e := DivRound(bitTime, i), TqError(bitTime, i);
            && e <= (if k * TIME_PER_TICK <= t then t - k * TIME_PER_TICK else k * TIME_PER_TICK - t)
            && exists m: nat :: IsAway(t, e, m)
  {
    Nearest(DivRound(bitTime, i), TqError(bitTime, i), k);
  }

  lemma Nearest(t: nat, e: nat, k: nat)
    requires var r := t % TIME_PER_TICK; e == if 2 * r > TIME_PER_TICK then TIME_PER_TICK - r else r
    ensures e <= (if k * TIME_PER_TICK <= t then t - k * TIME_PER_TICK else k * TIME_PER_TICK - t)
    ensures exists m: nat :: IsAway(t, e, m)
  {
    assert TIME_PER_TICK == 50;
    var q, r := t / TIME_PER_TICK, t % TIME_PER_TICK;
    assert IsAway(t, e, if 2 * r > TIME_PER_TICK then q + 1 else q);
  }

  predicate IsAway(t: nat, e: nat, m: nat) {
    t == m * TIME_PER_TICK + e || t + e == m * TIME_PER_TICK
  }

  /** tq is the first number of quanta in 8..25 with the least error. */
  ghost predicate BestTq(bitTime: nat, tq: nat) {
    && MIN_TQ_NUM <= tq <= MAX_TQ_NUM
    && forall i | MIN_TQ_NUM <= i <= MAX_TQ_NUM ::
         TqError(bitTime, tq) <= TqError(bitTime, i) && (i < tq ==> TqError(bitTime, tq) < TqError(bitTime, i))
  }

  datatype Timing = Timing(tq: nat, brp: nat, propseg: nat, phseg1: nat, phseg2: nat)

  /** The segments fill the bit; propagation takes two quanta; phase 2 is the number of quanta
      nearest to 30 percent of the bit, legal and not longer than phase 1, which is legal exactly
      when the bit has at most 16 quanta. */
  predicate SegmentsOk(t: Timing) {
    && 1 + t.propseg + t.phseg1 + t.phseg2 == t.tq
    && t.propseg == 2
    && t.phseg2 == DivRound(t.tq * SAMPLE_POINT, 100)
    && 2 <= t.phseg2 <= 8
    && t.phseg2 <= t.phseg1
    && (t.phseg1 <= 8 <==> t.tq <= 16)
  }

  /** The prescaler before it is stored into a `uint8_t`. */
  function Prescaler(baudrate: nat, tq: nat): nat
    requires 0 < baudrate && 0 < tq
  {
    DivRound(OSC_FREQ, 2 * baudrate * tq)
  }

  const TWO32: nat := 0x1_0000_0000

  /** Up to this rate the divisor of the prescaler fits 32 bits. */
  const MAX_BAUDRATE: nat := 85_899_345

  /** The divisor as it is computed in `uint32_t`. */
  function Divisor(baudrate: nat, tq: nat): nat {
    2 * baudrate * tq % TWO32
  }

  lemma DivisorFits(baudrate: nat, tq: nat)
    requires 1 <= baudrate <= MAX_BAUDRATE && 1 <= tq <= MAX_TQ_NUM
    ensures 0 < Divisor(baudrate, tq) == 2 * baudrate * tq
  {
    Monotone(baudrate, MAX_BAUDRATE, 2 * tq);
    Monotone(1, baudrate, 2 * tq);
    assert 2 * baudrate * tq == baudrate * (2 * tq);
  }

  datatype Outcome = Computed(t: Timing) | DivisionByZero

  /** set_baudrate up to the call of hw_set_bit_timing. */
  method ComputeTiming(baudrate: nat) returns (o: Outcome)
    requires baudrate < TWO32
    ensures o.Computed? ==>
              && 0 < baudrate && BestTq(DivRound(NS_IN_S, baudrate), o.t.tq)
              && SegmentsOk(o.t)
              && 0 < Divisor(baudrate, o.t.tq)
              && o.t.brp == DivRound(OSC_FREQ, Divisor(baudrate, o.t.tq)) % 256
    ensures o.DivisionByZero? ==>
              baudrate == 0 || exists tq :: BestTq(DivRound(NS_IN_S, baudrate), tq) && Divisor(baudrate, tq) == 0
    ensures 1 <= baudrate <= MAX_BAUDRATE ==> o.Computed? && o.t.brp == Prescaler(baudrate, o.t.tq) % 256
  {
    if baudrate == 0 {
      return DivisionByZero;
    }
    var bitTime := DivRound(NS_IN_S, baudrate);
    var minError := 0xFFFF_FFFF;
    var tq := MIN_TQ_NUM;
    var i := MIN_TQ_NUM;
    while i <= MAX_TQ_NUM
      invariant MIN_TQ_NUM <= i <= MAX_TQ_NUM + 1
      invariant i == MIN_TQ_NUM ==> minError == 0xFFFF_FFFF
      invariant MIN_TQ_NUM < i ==> MIN_TQ_NUM <= tq < i && minError == TqError(bitTime, tq)
      invariant forall k | MIN_TQ_NUM <= k < i ::
                  TqError(bitTime, tq) <= TqError(bitTime, k) && (k < tq ==> TqError(bitTime, tq) < TqError(bitTime, k))
    {
      var tqTime := DivRound(bitTime, i);
      var error := tqTime % TIME_PER_TICK;
      if 2 * error > TIME_PER_TICK {
        error := TIME_PER_TICK - error;
      }
      assert error == TqError(bitTime, i) < 0xFFFF_FFFF;
      if error < minError {
        minError := error;
        tq := i;
      }
      i := i + 1;
    }
    assert BestTq(bitTime, tq);
    if baudrate <= MAX_BAUDRATE {
      DivisorFits(baudrate, tq);
    }
    var divisor := Divisor(baudrate, tq);
    if divisor == 0 {
      return DivisionByZero;
    }
    var brp := DivRound(OSC_FREQ, divisor) % 256;
    var phseg2 := DivRound(tq * SAMPLE_POINT, 100);
    var phseg1 := phseg2;
    var propseg := tq - 1 - phseg1 - phseg2;
    if propseg > 2 {
      phseg1 := phseg1 + (propseg - 2);
      propseg := 2;
    }
    o := Computed(Timing(tq, brp, propseg, phseg1, phseg2));
  }

  // ------------------------------------------------------------ the bit rate

  /** With prescaler brp, at least 1, a bit of tq quanta lasts 2 * brp * tq oscillator periods; no
      other prescaler brings it nearer to the rate asked for when it is off by no more than half a
      step of the prescaler. How far that can be from the rate is the matter of module CanBitRate. */
  predicate NearestStep(baudrate: nat, tq: nat, brp: nat) {
    var periods := 2 * brp * tq * baudrate;
    0 < brp && (if OSC_FREQ <= periods then periods - OSC_FREQ else OSC_FREQ - periods) <= tq * baudrate
  }

  /** The rounding error of a quotient is at most half the divisor. */
  lemma RoundedQuotient(n: nat, h: nat)
    requires 0 < h
    ensures var q := DivRound(n, 2 * h);
            q * (2 * h) <= n + h < (q + 1) * (2 * h)
  {
    var d := 2 * h;
    assert d / 2 == h;
    var q := (n + h) / d;
    assert n + h == q * d + (n + h) % d;
    assert (q + 1) * d == q * d + d;
  }

  /** The stored prescaler is the nearest step exactly when it was neither rounded to 0 nor cut to
      eight bits. */
  lemma NearestStepIff(baudrate: nat, tq: nat)
    requires 0 < baudrate && 0 < tq
    ensures NearestStep(baudrate, tq, Prescaler(baudrate, tq) % 256) <==> 1 <= Prescaler(baudrate, tq) < 256
  {
    var h := baudrate * tq;
    var q := Prescaler(baudrate, tq);
    var brp := q % 256;
    assert 0 < h;
    assert 2 * baudrate * tq == 2 * h by { assert 2 * baudrate * tq == 2 * (baudrate * tq); }
    RoundedQuotient(OSC_FREQ, h);
    Regroup(brp, tq, baudrate);
    Regroup(q, tq, baudrate);
    assert tq * baudrate == h;
    assert (q + 1) * (2 * h) == q * (2 * h) + 2 * h;
    if q >= 256 {
      assert brp + 256 <= q;
      Monotone(brp + 256, q, 2 * h);
      assert (brp + 256) * (2 * h) == brp * (2 * h) + 512 * h;
    }
  }

  lemma Regroup(b: nat, t: nat, r: nat)
    ensures 2 * b * t * r == b * (2 * (r * t))
  {
    assert 2 * b * t * r == (2 * b) * (t * r);
    assert (2 * b) * (t * r) == b * (2 * (t * r));
  }

  lemma Monotone(a: nat, b: nat, h: nat)
    requires a <= b
    ensures a * h <= b * h
  {
  }

  // ------------------------------------------------------- the CNF registers

  /** hw_set_bit_timing fills three bytes for CNF3, CNF2 and CNF1. */
  datatype Cnf = Cnf(cnf3: bv8, cnf2: bv8, cnf1: bv8)

  datatype Fields = Fields(sjw: bv8, brp: bv8, propseg: bv8, phseg1: bv8, phseg2: bv8)

  const BTLMODE: bv8 := 0x80

  function CnfRegs(f: Fields): Cnf {
    Cnf(f.phseg2 - 1,
        BTLMODE | ((f.phseg1 - 1) << 3) | (f.propseg - 1),
        ((f.sjw - 1) << 6) | (f.brp - 1))
  }

  function Larger(a: bv8, b: bv8): bv8 {
    if a < b then b else a
  }

  /** How the controller reads the registers: each field is one more than its bits. Phase 2 is read
      from CNF3 only if the mode bit of CNF2 is set; otherwise it is as long as phase 1, but at
      least the two quanta of information processing. */
  function ReadCnf(c: Cnf): Fields {
    var phseg1 := ((c.cnf2 >> 3) & 7) + 1;
    Fields((c.cnf1 >> 6) + 1, (c.cnf1 & 0x3F) + 1, (c.cnf2 & 7) + 1, phseg1,
           if c.cnf2 & 0x80 != 0 then (c.cnf3 & 7) + 1 else Larger(phseg1, 2))
  }

  predicate InRange(f: Fields) {
    && 1 <= f.sjw && f.sjw <= 4
    && 1 <= f.brp && f.brp <= 64
    && 1 <= f.propseg && f.propseg <= 8
    && 1 <= f.phseg1 && f.phseg1 <= 8
    && 1 <= f.phseg2 && f.phseg2 <= 8
  }

  lemma ReadsInRange(c: Cnf)
    ensures InRange(ReadCnf(c))
  {
  }

  lemma DecodesInRange(f: Fields)
    requires InRange(f)
    ensures ReadCnf(CnfRegs(f)) == f
  {
  }

  /** The registers decode to the fields they were made of exactly when every field is in the
      range the CAN specification and the registers have for it. */
  lemma CnfRoundTripIff(f: Fields)
    ensures ReadCnf(CnfRegs(f)) == f <==> InRange(f)
  {
    if InRange(f) {
      DecodesInRange(f);
    } else {
      ReadsInRange(CnfRegs(f));
    }
  }

  /** The computed timing as the `uint8_t` arguments of hw_set_bit_timing; sjw is 1. */
  function FieldsOf(t: Timing): Fields
    requires t.brp < 256 && t.propseg < 256 && t.phseg1 < 256 && t.phseg2 < 256
  {
    Fields(1, t.brp as bv8, t.propseg as bv8, t.phseg1 as bv8, t.phseg2 as bv8)
  }

  lemma ByteRange(x: nat)
    requires x < 256
    ensures 1 <= (x as bv8) <==> 1 <= x
    ensures (x as bv8) <= 8 <==> x <= 8
    ensures (x as bv8) <= 64 <==> x <= 64
  {
  }

  /** set_baudrate as a whole: the controller works with the computed timing exactly when the bit
      has at most 16 quanta and the stored prescaler is in 1..64. */
  lemma TimingReachesController(t: Timing)
    requires SegmentsOk(t) && t.brp < 256 && t.tq <= MAX_TQ_NUM
    ensures ReadCnf(CnfRegs(FieldsOf(t))) == FieldsOf(t) <==> t.tq <= 16 && 1 <= t.brp <= 64
  {
    CnfRoundTripIff(FieldsOf(t));
    FieldsInRange(t);
  }

  lemma FieldsInRange(t: Timing)
    requires SegmentsOk(t) && t.brp < 256 && t.tq <= MAX_TQ_NUM
    ensures InRange(FieldsOf(t)) <==> t.tq <= 16 && 1 <= t.brp <= 64
  {
    ByteRange(t.brp);
    ByteRange(t.propseg);
    ByteRange(t.phseg1);
    ByteRange(t.phseg2);
  }

  /** The controller works with the computed timing, and its prescaler is the step nearest to the
      rate, exactly when the bit has at most 16 quanta and the prescaler, before it is stored, is in
      1..64. */
  lemma DecodesNearestIff(baudrate: nat, t: Timing)
    requires 0 < baudrate && SegmentsOk(t) && MIN_TQ_NUM <= t.tq <= MAX_TQ_NUM
    requires t.brp == Prescaler(baudrate, t.tq) % 256
    ensures ReadCnf(CnfRegs(FieldsOf(t))) == FieldsOf(t) && NearestStep(baudrate, t.tq, t.brp)
       <==> t.tq <= 16 && 1 <= Prescaler(baudrate, t.tq) <= 64
  {
    var q := Prescaler(baudrate, t.tq);
    TimingReachesController(t);
    NearestStepIff(baudrate, t.tq);
    BothConditions(ReadCnf(CnfRegs(FieldsOf(t))) == FieldsOf(t), NearestStep(baudrate, t.tq, t.brp), t.tq, t.brp, q);
  }

  lemma BothConditions(decodes: bool, accurate: bool, tq: nat, brp: nat, q: nat)
    requires brp == q % 256
    requires decodes <==> tq <= 16 && 1 <= brp <= 64
    requires accurate <==> 1 <= q < 256
    ensures decodes && accurate <==> tq <= 16 && 1 <= q <= 64
  {
  }

  /** From 4893 bit/s on the prescaler is never cut, and up to 800 kbit/s it is never rounded to 0. */
  lemma PrescalerInByte(baudrate: nat, tq: nat)
    requires 0 < baudrate && MIN_TQ_NUM <= tq <= MAX_TQ_NUM
    ensures 4893 <= baudrate ==> Prescaler(baudrate, tq) < 256
    ensures baudrate <= 800_000 ==> 1 <= Prescaler(baudrate, tq)
  {
    var h := baudrate * tq;
    assert 2 * baudrate * tq == 2 * h;
    RoundedQuotient(OSC_FREQ, h);
    var q := Prescaler(baudrate, tq);
    if 4893 <= baudrate && 256 <= q {
      Monotone(4893, baudrate, tq);
      Monotone(256, q, 2 * h);
      assert false;
    }
    if baudrate <= 800_000 && q == 0 {
      Monotone(baudrate, 800_000, tq);
      assert false;
    }
  }

  lemma ErrorIs(bitTime: nat, i: nat, q: nat, e: nat)
    requires 0 < i && q * i <= bitTime + i / 2 < (q + 1) * i
    requires e == if 2 * (q % TIME_PER_TICK) > TIME_PER_TICK then TIME_PER_TICK - q % TIME_PER_TICK else q % TIME_PER_TICK
    ensures TqError(bitTime, i) == e
  {
    var d := DivRound(bitTime, i);
    assert TIME_PER_TICK == 50;
    assert d * i <= bitTime + i / 2 < (d + 1) * i;
    if d < q { Monotone(d + 1, q, i); }
    if q < d { Monotone(q + 1, d, i); }
  }

  lemma NoErrorIsBest(bitTime: nat)
    requires TqError(bitTime, MIN_TQ_NUM) == 0
    ensures BestTq(bitTime, MIN_TQ_NUM)
  {
  }

  lemma SlowRateNumbers()
    ensures DivRound(NS_IN_S, 4845) == 206398 && Prescaler(4845, 8) == 258
  {
  }

  /** At 4845 bit/s the prescaler 258 is stored as 2: a value the registers can hold, for a rate
      that is far off. */
  lemma SlowRateFails()
    ensures BestTq(DivRound(NS_IN_S, 4845), 8)
    ensures Prescaler(4845, 8) % 256 == 2 && !NearestStep(4845, 8, Prescaler(4845, 8) % 256)
  {
    SlowRateNumbers();
    ErrorIs(206398, 8, 25800, 0);
    NoErrorIsBest(206398);
    NearestStepIff(4845, 8);
  }

  lemma FastRateErrors(i: nat)
    requires MIN_TQ_NUM <= i <= MAX_TQ_NUM
    ensures TqError(1250, i) == 0 <==> i == 25
  {
    match i
    case 8 => ErrorIs(1250, 8, 156, 6);
    case 9 => ErrorIs(1250, 9, 139, 11);
    case 10 => ErrorIs(1250, 10, 125, 25);
    case 11 => ErrorIs(1250, 11, 114, 14);
    case 12 => ErrorIs(1250, 12, 104, 4);
    case 13 => ErrorIs(1250, 13, 96, 4);
    case 14 => ErrorIs(1250, 14, 89, 11);
    case 15 => ErrorIs(1250, 15, 83, 17);
    case 16 => ErrorIs(1250, 16, 78, 22);
    case 17 => ErrorIs(1250, 17, 74, 24);
    case 18 => ErrorIs(1250, 18, 69, 19);
    case 19 => ErrorIs(1250, 19, 66, 16);
    case 20 => ErrorIs(1250, 20, 63, 13);
    case 21 => ErrorIs(1250, 21, 60, 10);
    case 22 => ErrorIs(1250, 22, 57, 7);
    case 23 => ErrorIs(1250, 23, 54, 4);
    case 24 => ErrorIs(1250, 24, 52, 2);
    case 25 => ErrorIs(1250, 25, 50, 0);
  }

  lemma TwentyFiveQuanta()
    ensures BestTq(1250, 25)
  {
    FastRateErrors(25);
    forall i | MIN_TQ_NUM <= i < 25
      ensures 0 < TqError(1250, i)
    {
      FastRateErrors(i);
    }
  }

  /** At 800001 bit/s the prescaler is rounded to 0, for which the controller takes 64. */
  lemma ZeroPrescalerFails()
    ensures BestTq(DivRound(NS_IN_S, 800_001), 25)
    ensures Prescaler(800_001, 25) == 0 && !NearestStep(800_001, 25, 0)
    ensures ReadCnf(CnfRegs(Fields(1, 0, 2, 14, 8))).brp == 64 && !NearestStep(800_001, 25, 64)
  {
    assert DivRound(NS_IN_S, 800_001) == 1250;
    TwentyFiveQuanta();
  }

  /** At 800 kbit/s the search settles on 25 quanta, for which phase 1 does not fit its register. */
  lemma FastRateFails()
    ensures BestTq(DivRound(NS_IN_S, 800_000), 25)
    ensures forall t: Timing | SegmentsOk(t) && t.tq == 25 && t.brp < 256 ::
              ReadCnf(CnfRegs(FieldsOf(t))) != FieldsOf(t)
  {
    assert DivRound(NS_IN_S, 800_000) == 1250;
    TwentyFiveQuanta();
    forall t: Timing | SegmentsOk(t) && t.tq == 25 && t.brp < 256
      ensures ReadCnf(CnfRegs(FieldsOf(t))) != FieldsOf(t)
    {
      TimingReachesController(t);
    }
  }
}
