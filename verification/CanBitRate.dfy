/**
 The bit rate at which the controller runs after set_baudrate, judged by the fields it decodes
 from its registers: which rates are met, and how far off the others are.
 */
module CanBitRate {
  import opened CanBitTiming

  function BrpOf(f: Fields): nat {
    f.brp as nat
  }

  function Quanta(f: Fields): nat {
    1 + f.propseg as nat + f.phseg1 as nat + f.phseg2 as nat
  }

  /** How many oscillator periods a bit lasts in a controller with these registers. */
  function BitPeriods(c: Cnf): nat {
    2 * BrpOf(ReadCnf(c)) * Quanta(ReadCnf(c))
  }

  predicate RunsAt(c: Cnf, baudrate: nat) {
    BitPeriods(c) * baudrate == OSC_FREQ
  }

  // ---------------------------------------------------- what the controller decodes

  lemma ByteAsNat(x: nat)
    requires x <= 64
    ensures (x as bv8) as nat == x
  {
  }

  lemma ByteMinus8(x: nat)
    requires 8 <= x <= 16
    ensures ((x as bv8) - 8) as nat == x - 8
  {
  }

  lemma SmallByte(x: nat)
    requires 1 <= x <= 16
    ensures (x as bv8) as nat == x
    ensures 1 <= x as bv8 && x as bv8 <= 16
    ensures x as bv8 <= 8 <==> x <= 8
  {
  }

  /** Phase 1 loses its fourth bit in CNF2; the other segments are not affected. */
  lemma SegmentBits(p1: bv8, p2: bv8)
    requires 1 <= p1 && p1 <= 16 && 1 <= p2 && p2 <= 8
    ensures (0x80 | ((p1 - 1) << 3) | 1) & 0x80 != 0
    ensures ((0x80 | ((p1 - 1) << 3) | 1) & 7) + 1 == 2
    ensures (((0x80 | ((p1 - 1) << 3) | 1) >> 3) & 7) + 1 == if p1 <= 8 then p1 else p1 - 8
    ensures ((p2 - 1) & 7) + 1 == p2
  {
  }

  lemma DecodedSegments(f: Fields)
    requires f.propseg == 2 && 1 <= f.phseg1 && f.phseg1 <= 16 && 1 <= f.phseg2 && f.phseg2 <= 8
    ensures var d := ReadCnf(CnfRegs(f));
            d.propseg == 2 && d.phseg2 == f.phseg2 && d.phseg1 == if f.phseg1 <= 8 then f.phseg1 else f.phseg1 - 8
  {
    SegmentBits(f.phseg1, f.phseg2);
  }

  /** A bit of more than 16 quanta is eight quanta shorter for the controller. */
  lemma DecodedQuanta(t: Timing)
    requires SegmentsOk(t) && t.brp < 256 && t.tq <= MAX_TQ_NUM
    ensures Quanta(ReadCnf(CnfRegs(FieldsOf(t)))) == if t.tq <= 16 then t.tq else t.tq - 8
  {
    SmallByte(t.phseg1);
    SmallByte(t.phseg2);
    DecodedSegments(FieldsOf(t));
    if 8 < t.phseg1 {
      ByteMinus8(t.phseg1);
    }
  }

  lemma BrpBits(c: bv8)
    ensures 1 <= (c & 0x3F) + 1 && (c & 0x3F) + 1 <= 64
    ensures 1 <= c && c <= 64 ==> ((c - 1) & 0x3F) + 1 == c
  {
  }

  lemma BrpInRange(c: bv8)
    requires 1 <= c && c <= 64
    ensures 1 <= c as nat <= 64
  {
  }

  /** The controller's prescaler is in 1..64, and is the stored one if that is. */
  lemma DecodedBrp(t: Timing)
    requires SegmentsOk(t) && t.brp < 256 && t.tq <= MAX_TQ_NUM
    ensures var d := BrpOf(ReadCnf(CnfRegs(FieldsOf(t))));
            1 <= d <= 64 && (1 <= t.brp <= 64 ==> d == t.brp)
  {
    var f := FieldsOf(t);
    BrpBits(CnfRegs(f).cnf1);
    BrpBits(f.brp);
    BrpInRange(ReadCnf(CnfRegs(f)).brp);
    ByteRange(t.brp);
    if 1 <= t.brp <= 64 {
      ByteAsNat(t.brp);
      BrpStored(f);
    }
  }

  lemma BrpStored(f: Fields)
    requires f.sjw == 1 && 1 <= f.brp && f.brp <= 64
    ensures ReadCnf(CnfRegs(f)).brp == f.brp
  {
  }

  // ------------------------------------------------------ which rates are met

  /** A whole number in 1..64 as prescaler meets the rate with tq quanta. */
  predicate Fits(baudrate: nat, tq: nat, k: nat) {
    1 <= k <= 64 && k * (2 * (baudrate * tq)) == OSC_FREQ
  }

  /** Rounding finds the prescaler that meets the rate, if there is one. */
  lemma RoundingFinds(baudrate: nat, tq: nat, k: nat)
    requires 0 < baudrate && 0 < tq && Fits(baudrate, tq, k)
    ensures Prescaler(baudrate, tq) == k
  {
    var h := baudrate * tq;
    QuotientBounds(baudrate, tq);
    var q := Prescaler(baudrate, tq);
    assert k * (2 * h) + 2 * h == (k + 1) * (2 * h);
    assert q * (2 * h) + 2 * h == (q + 1) * (2 * h);
    if q < k { Monotone(q + 1, k, 2 * h); }
    if k < q { Monotone(k + 1, q, 2 * h); }
  }

  function Decoded(t: Timing): Fields
    requires SegmentsOk(t) && t.brp < 256 && t.tq <= MAX_TQ_NUM
  {
    ReadCnf(CnfRegs(FieldsOf(t)))
  }

  /** The rate of the controller in terms of what it decodes. */
  lemma RunsAtMeans(baudrate: nat, t: Timing)
    requires SegmentsOk(t) && t.brp < 256 && t.tq <= MAX_TQ_NUM
    ensures var d, n := BrpOf(Decoded(t)), if t.tq <= 16 then t.tq else t.tq - 8;
            && 1 <= d <= 64 && (1 <= t.brp <= 64 ==> d == t.brp)
            && (RunsAt(CnfRegs(FieldsOf(t)), baudrate) <==> d * (2 * (baudrate * n)) == OSC_FREQ)
  {
    DecodedQuanta(t);
    DecodedBrp(t);
    PeriodsRegroup(BrpOf(Decoded(t)), Quanta(Decoded(t)), baudrate);
  }

  lemma PeriodsRegroup(d: nat, n: nat, baudrate: nat)
    ensures 2 * d * n * baudrate == d * (2 * (baudrate * n))
  {
    Regroup(d, n, baudrate);
  }

  /** With at most 16 quanta the controller runs at the rate exactly when some prescaler in 1..64
      meets it. */
  lemma ShortBitExact(baudrate: nat, t: Timing)
    requires 0 < baudrate && SegmentsOk(t) && MIN_TQ_NUM <= t.tq <= 16
    requires t.brp == Prescaler(baudrate, t.tq) % 256
    ensures RunsAt(CnfRegs(FieldsOf(t)), baudrate) <==> exists k: nat :: Fits(baudrate, t.tq, k)
  {
    RunsAtMeans(baudrate, t);
    var d := BrpOf(Decoded(t));
    if d * (2 * (baudrate * t.tq)) == OSC_FREQ {
      assert Fits(baudrate, t.tq, d);
    }
    if k: nat :| Fits(baudrate, t.tq, k) {
      RoundingFinds(baudrate, t.tq, k);
    }
  }

  /** A longer bit could run at the rate only by the accident that loses it eight quanta. */
  lemma LongBit(baudrate: nat, t: Timing)
    requires 0 < baudrate && SegmentsOk(t) && 16 < t.tq <= MAX_TQ_NUM
    requires t.brp == Prescaler(baudrate, t.tq) % 256
    requires RunsAt(CnfRegs(FieldsOf(t)), baudrate)
    ensures 2 * (baudrate * (t.tq - 8)) == OSC_FREQ
  {
    RunsAtMeans(baudrate, t);
    OnlyPrescalerOne(baudrate, t.tq, BrpOf(Decoded(t)));
  }

  lemma OnlyPrescalerOne(b: nat, tq: nat, d: nat)
    requires 0 < b && 16 < tq <= MAX_TQ_NUM && 1 <= d <= 64
    requires d * (2 * (b * (tq - 8))) == OSC_FREQ
    requires var s := Prescaler(b, tq) % 256; 1 <= s <= 64 ==> d == s
    ensures d == 1
  {
    var q := Prescaler(b, tq);
    QuotientBounds(b, tq);
    LongBitProducts(b, tq, d, q);
    NearTheQuotient(b, tq, d, q, d * b, q * b);
    OnlyOne(b, tq, d, d * b);
  }

  lemma QuotientBounds(b: nat, tq: nat)
    requires 0 < b && 0 < tq
    ensures var q := Prescaler(b, tq);
            q * (2 * (b * tq)) <= OSC_FREQ + b * tq < (q + 1) * (2 * (b * tq))
  {
    assert 2 * b * tq == 2 * (b * tq);
    RoundedQuotient(OSC_FREQ, b * tq);
  }

  lemma LongBitProducts(b: nat, tq: nat, d: nat, q: nat)
    requires 8 <= tq
    ensures d * (2 * (b * (tq - 8))) == 2 * (tq * (d * b)) - 16 * (d * b)
    ensures q * (2 * (b * tq)) == 2 * (tq * (q * b))
    ensures (q + 1) * (2 * (b * tq)) == 2 * (tq * (q * b)) + 2 * (tq * b)
  {
    assert b * (tq - 8) == b * tq - 8 * b;
    assert d * (b * tq) == tq * (d * b);
    assert q * (b * tq) == tq * (q * b);
    assert d * (2 * (b * tq - 8 * b)) == 2 * (d * (b * tq)) - 16 * (d * b);
  }

  /** m is d * b and n is q * b. */
  lemma NearTheQuotient(b: nat, tq: nat, d: nat, q: nat, m: nat, n: nat)
    requires 0 < b && 16 < tq <= MAX_TQ_NUM && 1 <= d && m == d * b && n == q * b
    requires OSC_FREQ == 2 * (tq * m) - 16 * m
    requires 2 * (tq * n) <= OSC_FREQ + b * tq < 2 * (tq * n) + 2 * (tq * b)
    ensures 1 <= q <= d
  {
    Monotone(1, d, b);
    assert (m + b) * tq == tq * m + tq * b;
    if d < q {
      Monotone(d + 1, q, b);
      Monotone(m + b, n, tq);
    }
    if q == 0 {
      Monotone(b, m, tq);
      Monotone(17, tq, m);
    }
  }

  lemma OnlyOne(b: nat, tq: nat, d: nat, m: nat)
    requires 0 < b && 16 < tq <= MAX_TQ_NUM && 1 <= d && m == d * b
    requires OSC_FREQ == 2 * (tq * m) - 16 * m
    requires 2 * (tq * m) <= OSC_FREQ + b * tq
    ensures d == 1
  {
    Monotone(tq, 25, b);
    if 2 <= d {
      Monotone(2, d, b);
    }
  }

  // ------------------------------------------------------- the rates, one by one

  /** The rates the controller runs at when it is asked for them. */
  const MET: set<nat> := {25_000, 31_250, 40_000, 50_000, 62_500, 78_125, 125_000,
                          156_250, 200_000, 250_000, 312_500, 625_000, 1_000_000, 1_250_000}

  /** The other rates that some prescaler in 1..64 and some number of quanta in 8..16 would meet. */
  const MISSED: set<nat> := {12_500, 15_625, 20_000, 100_000, 500_000}

  /** For all but three of these rates the search settles on 8 quanta, for those on 10. */
  const TEN: set<nat> := {40_000, 200_000, 1_000_000}

  function BestFor(baudrate: nat): nat {
    if baudrate in TEN then 10 else 8
  }

  lemma BestIsUnique(bitTime: nat, a: nat, c: nat)
    requires BestTq(bitTime, a)
    ensures BestTq(bitTime, c) <==> a == c
  {
    if BestTq(bitTime, c) {
      var x, y := TqError(bitTime, a), TqError(bitTime, c);
      assert x <= y && y <= x;
    }
  }

  lemma BitTimeIs(baudrate: nat, bitTime: nat)
    requires 0 < baudrate && bitTime * baudrate == NS_IN_S
    ensures DivRound(NS_IN_S, baudrate) == bitTime
  {
    var d := DivRound(NS_IN_S, baudrate);
    assert d * baudrate <= NS_IN_S + baudrate / 2 < (d + 1) * baudrate;
    if d < bitTime { Monotone(d + 1, bitTime, baudrate); }
    if bitTime < d { Monotone(bitTime + 1, d, baudrate); }
  }

  /** Eight quanta are whole multiples of the tick when the rate divides 2.5 MHz. */
  lemma NoErrorAtEight(baudrate: nat, k: nat)
    requires 0 < baudrate && k * baudrate == 2_500_000
    ensures TqError(DivRound(NS_IN_S, baudrate), 8) == 0
  {
    assert TIME_PER_TICK == 50;
    assert (400 * k) * baudrate == 400 * (k * baudrate) == NS_IN_S;
    BitTimeIs(baudrate, 400 * k);
    ErrorIs(400 * k, 8, 50 * k, 0);
  }

  lemma EightErrors(baudrate: nat)
    requires baudrate in MET + MISSED && baudrate !in TEN
    ensures TqError(DivRound(NS_IN_S, baudrate), 8) == 0
  {
    NoErrorAtEight(baudrate, 2_500_000 / baudrate);
  }

  ghost predicate TenOnly(bitTime: nat) {
    0 < TqError(bitTime, 8) && 0 < TqError(bitTime, 9) && TqError(bitTime, 10) == 0
  }

  lemma ErrorsAt(bitTime: nat, q8: nat, e8: nat, q9: nat, e9: nat, q10: nat)
    requires q8 * 8 <= bitTime + 4 < (q8 + 1) * 8 && e8 == q8 % 50 && 0 < e8 <= 25
    requires q9 * 9 <= bitTime + 4 < (q9 + 1) * 9 && 0 < e9 && (e9 == q9 % 50 <= 25 || (e9 == 50 - q9 % 50 < 25))
    requires q10 * 10 == bitTime && q10 % 50 == 0
    ensures TenOnly(bitTime)
  {
    ErrorIs(bitTime, 8, q8, e8);
    ErrorIs(bitTime, 9, q9, e9);
    ErrorIs(bitTime, 10, q10, 0);
  }

  lemma TenErrors(baudrate: nat)
    requires baudrate in TEN
    ensures TenOnly(DivRound(NS_IN_S, baudrate))
  {
    BitTimeIs(baudrate, NS_IN_S / baudrate);
    if baudrate == 40_000 {
      ErrorsAt(25_000, 3125, 25, 2778, 22, 2500);
    } else if baudrate == 200_000 {
      ErrorsAt(5_000, 625, 25, 556, 6, 500);
    } else {
      ErrorsAt(1_000, 125, 25, 111, 11, 100);
    }
  }

  lemma TenIsBest(bitTime: nat)
    requires TenOnly(bitTime)
    ensures BestTq(bitTime, 10)
  {
  }

  lemma BestOf(baudrate: nat)
    requires baudrate in MET + MISSED
    ensures BestTq(DivRound(NS_IN_S, baudrate), BestFor(baudrate))
  {
    if baudrate in TEN {
      TenErrors(baudrate);
      TenIsBest(DivRound(NS_IN_S, baudrate));
    } else {
      EightErrors(baudrate);
      NoErrorIsBest(DivRound(NS_IN_S, baudrate));
    }
  }

  /** The rates that can be met at all with 8..16 quanta, and with how many. */
  lemma Candidates(baudrate: nat, tq: nat, k: nat)
    requires MIN_TQ_NUM <= tq <= 16 && Fits(baudrate, tq, k)
    ensures baudrate in MET + MISSED
    ensures tq == 8 || tq == 10 || tq == 16
    ensures tq == (BestFor(baudrate)) ==> baudrate in MET
  {
    assert k * baudrate * tq == 10_000_000;
    FactorsOf(k * baudrate, tq);
    if tq == 8 {
      EightFactors(k, baudrate);
    } else if tq == 10 {
      TenFactors(k, baudrate);
    } else {
      SixteenFactors(k, baudrate);
    }
  }

  lemma FactorsOf(x: nat, tq: nat)
    requires MIN_TQ_NUM <= tq <= 16 && x * tq == 10_000_000
    ensures tq == 8 || tq == 10 || tq == 16
  {
  }

  lemma EightFactors(k: nat, b: nat)
    requires 1 <= k <= 64 && k * b == 1_250_000
    ensures b in {25_000, 31_250, 50_000, 62_500, 78_125, 125_000, 156_250, 250_000, 312_500, 625_000, 1_250_000}
  {
  }

  lemma TenFactors(k: nat, b: nat)
    requires 1 <= k <= 64 && k * b == 1_000_000
    ensures b in {15_625, 20_000, 25_000, 31_250, 40_000, 50_000, 62_500, 100_000, 125_000, 200_000, 250_000, 500_000, 1_000_000}
  {
  }

  lemma SixteenFactors(k: nat, b: nat)
    requires 1 <= k <= 64 && k * b == 625_000
    ensures b in {12_500, 15_625, 25_000, 31_250, 62_500, 78_125, 125_000, 156_250, 312_500, 625_000}
  {
  }

  lemma MetFits(baudrate: nat)
    requires baudrate in MET
    ensures exists k: nat :: Fits(baudrate, BestFor(baudrate), k)
  {
    var tq := BestFor(baudrate);
    match baudrate
    case 25_000 => assert Fits(25_000, tq, 50);
    case 31_250 => assert Fits(31_250, tq, 40);
    case 40_000 => assert Fits(40_000, tq, 25);
    case 50_000 => assert Fits(50_000, tq, 25);
    case 62_500 => assert Fits(62_500, tq, 20);
    case 78_125 => assert Fits(78_125, tq, 16);
    case 125_000 => assert Fits(125_000, tq, 10);
    case 156_250 => assert Fits(156_250, tq, 8);
    case 200_000 => assert Fits(200_000, tq, 5);
    case 250_000 => assert Fits(250_000, tq, 5);
    case 312_500 => assert Fits(312_500, tq, 4);
    case 625_000 => assert Fits(625_000, tq, 2);
    case 1_000_000 => assert Fits(1_000_000, tq, 1);
    case 1_250_000 => assert Fits(1_250_000, tq, 1);
  }

  /** The lengths for which a bit of more than 16 quanta could run at the rate are not chosen. */
  lemma LongBitNotChosen(baudrate: nat, tq: nat)
    requires 0 < baudrate && 16 < tq <= MAX_TQ_NUM && 2 * (baudrate * (tq - 8)) == OSC_FREQ
    ensures !BestTq(DivRound(NS_IN_S, baudrate), tq)
  {
    assert (tq == 18 && baudrate == 1_000_000) || (tq == 24 && baudrate == 625_000);
    BestOf(baudrate);
    BestIsUnique(DivRound(NS_IN_S, baudrate), BestFor(baudrate), tq);
  }

  /** Of all rates, the controller runs at the one asked for exactly for those in MET. */
  lemma MetExactly(baudrate: nat, t: Timing)
    requires 0 < baudrate && SegmentsOk(t) && BestTq(DivRound(NS_IN_S, baudrate), t.tq)
    requires t.brp == Prescaler(baudrate, t.tq) % 256
    ensures RunsAt(CnfRegs(FieldsOf(t)), baudrate) <==> baudrate in MET
  {
    var bitTime, best := DivRound(NS_IN_S, baudrate), BestFor(baudrate);
    if baudrate in MET {
      BestOf(baudrate);
      BestIsUnique(bitTime, t.tq, best);
      MetFits(baudrate);
      ShortBitExact(baudrate, t);
    }
    if RunsAt(CnfRegs(FieldsOf(t)), baudrate) {
      if 16 < t.tq {
        LongBit(baudrate, t);
        LongBitNotChosen(baudrate, t.tq);
      } else {
        ShortBitExact(baudrate, t);
        var k: nat :| Fits(baudrate, t.tq, k);
        Candidates(baudrate, t.tq, k);
        BestOf(baudrate);
        BestIsUnique(bitTime, t.tq, best);
      }
    }
  }

  /** The condition in terms of the search's result: the rate is met exactly when the bit has at
      most 16 quanta and the rounded quotient of the prescaler was no rounding and is at most 64. */
  lemma ExactRateIff(baudrate: nat, t: Timing)
    requires 0 < baudrate && SegmentsOk(t) && BestTq(DivRound(NS_IN_S, baudrate), t.tq)
    requires t.brp == Prescaler(baudrate, t.tq) % 256
    ensures var d := 2 * (baudrate * t.tq);
            RunsAt(CnfRegs(FieldsOf(t)), baudrate) <==> t.tq <= 16 && OSC_FREQ % d == 0 && OSC_FREQ / d <= 64
  {
    if t.tq <= 16 {
      ShortBitExact(baudrate, t);
      WholeQuotient(baudrate, t.tq);
    } else if RunsAt(CnfRegs(FieldsOf(t)), baudrate) {
      LongBit(baudrate, t);
      LongBitNotChosen(baudrate, t.tq);
    }
  }

  lemma WholeQuotient(baudrate: nat, tq: nat)
    requires 0 < baudrate && 0 < tq
    ensures var d := 2 * (baudrate * tq);
            (exists k: nat :: Fits(baudrate, tq, k)) <==> OSC_FREQ % d == 0 && OSC_FREQ / d <= 64
  {
    var d := 2 * (baudrate * tq);
    if k: nat :| Fits(baudrate, tq, k) {
      Uniquely(OSC_FREQ, d, k);
    }
    if OSC_FREQ % d == 0 && OSC_FREQ / d <= 64 {
      assert Fits(baudrate, tq, OSC_FREQ / d);
    }
  }

  lemma Uniquely(n: nat, d: nat, k: nat)
    requires 0 < d && k * d == n
    ensures n / d == k && n % d == 0
  {
    var q := n / d;
    assert q * d <= n < (q + 1) * d;
    if q < k { Monotone(q + 1, k, d); }
    if k < q { Monotone(k + 1, q, d); }
  }

  /** The search misses five rates that it could meet: it minimises the distance of a quantum from a
      multiple of the oscillator tick, but a quantum is an even number of ticks. */
  lemma MissedExactly(baudrate: nat, t: Timing)
    requires 0 < baudrate && SegmentsOk(t) && BestTq(DivRound(NS_IN_S, baudrate), t.tq)
    requires t.brp == Prescaler(baudrate, t.tq) % 256
    ensures (exists tq: nat, k: nat :: MIN_TQ_NUM <= tq <= 16 && Fits(baudrate, tq, k)) && !RunsAt(CnfRegs(FieldsOf(t)), baudrate)
       <==> baudrate in MISSED
  {
    MetExactly(baudrate, t);
    if tq: nat, k: nat :| MIN_TQ_NUM <= tq <= 16 && Fits(baudrate, tq, k) {
      Candidates(baudrate, tq, k);
    }
    if baudrate in MISSED {
      MissedFits(baudrate);
    }
  }

  lemma MissedFits(baudrate: nat)
    requires baudrate in MISSED
    ensures exists tq: nat, k: nat :: MIN_TQ_NUM <= tq <= 16 && Fits(baudrate, tq, k)
    ensures baudrate !in MET
  {
    if baudrate == 12_500 {
      assert Fits(baudrate, 16, 50);
    } else if baudrate == 15_625 {
      assert Fits(baudrate, 10, 64);
    } else if baudrate == 20_000 {
      assert Fits(baudrate, 10, 50);
    } else if baudrate == 100_000 {
      assert Fits(baudrate, 10, 10);
    } else {
      assert Fits(baudrate, 10, 2);
    }
  }

  // ------------------------------------------------------ how far off a rate is

  /** By how many oscillator periods a second's worth of bits is off with prescaler q. */
  function Off(baudrate: nat, tq: nat, q: nat): nat {
    var periods := q * (2 * (baudrate * tq));
    if OSC_FREQ <= periods then periods - OSC_FREQ else OSC_FREQ - periods
  }

  /** With the rounded prescaler q the rate is off by at most the part 1 / (2 q - 1), and by just that
      much exactly when a quantum should be 2 q - 1 ticks, an odd number: those quanta have no error
      in the search. */
  lemma OddTicksAreWorst(baudrate: nat, tq: nat)
    requires 0 < baudrate && 0 < tq && 1 <= Prescaler(baudrate, tq)
    ensures var q := Prescaler(baudrate, tq);
            && Off(baudrate, tq, q) * (2 * q - 1) <= OSC_FREQ
            && (Off(baudrate, tq, q) * (2 * q - 1) == OSC_FREQ <==> (2 * q - 1) * (baudrate * tq) == OSC_FREQ)
  {
    QuotientBounds(baudrate, tq);
    WorstCase(OSC_FREQ, baudrate * tq, Prescaler(baudrate, tq));
  }

  lemma Step(e: nat, h: nat, c: nat)
    requires e < h
    ensures e * c + c <= h * c
  {
    Monotone(e + 1, h, c);
    assert (e + 1) * c == e * c + c;
  }

  lemma WorstCase(n: nat, h: nat, q: nat)
    requires 1 <= q && 0 < h && q * (2 * h) <= n + h < (q + 1) * (2 * h)
    ensures var e := if n <= q * (2 * h) then q * (2 * h) - n else n - q * (2 * h);
            e * (2 * q - 1) <= n && (e * (2 * q - 1) == n <==> (2 * q - 1) * h == n)
  {
    var e := if n <= q * (2 * h) then q * (2 * h) - n else n - q * (2 * h);
    assert (q + 1) * (2 * h) == q * (2 * h) + 2 * h;
    assert (2 * q - 1) * h == q * (2 * h) - h;
    Monotone(e, h, 2 * q - 1);
    if e < h {
      Step(e, h, 2 * q - 1);
    }
  }

  /** Every odd number of ticks is such a case, and the bit then is tq ticks too long. */
  lemma OddTicks(baudrate: nat, tq: nat, k: nat)
    requires 0 < baudrate && 0 < tq && (2 * k + 1) * (baudrate * tq) == OSC_FREQ
    ensures Prescaler(baudrate, tq) == k + 1
    ensures 2 * (k + 1) * tq == (2 * k + 1) * tq + tq
    ensures Off(baudrate, tq, k + 1) == baudrate * tq
  {
    QuotientBounds(baudrate, tq);
    var h, q := baudrate * tq, Prescaler(baudrate, tq);
    assert (k + 1) * (2 * h) == OSC_FREQ + h;
    assert (q + 1) * (2 * h) == q * (2 * h) + 2 * h;
    assert (k + 2) * (2 * h) == (k + 1) * (2 * h) + 2 * h;
    if q < k + 1 { Monotone(q + 1, k + 1, 2 * h); }
    if k + 1 < q { Monotone(k + 2, q, 2 * h); }
  }

  /** At 500 kbit/s the search takes 8 quanta of 5 ticks, which become 6: the controller's bit lasts
      48 oscillator periods and not 40, as it would with 10 quanta and prescaler 2. */
  lemma HalfMegabitFails(t: Timing)
    requires SegmentsOk(t) && BestTq(DivRound(NS_IN_S, 500_000), t.tq)
    requires t.brp == Prescaler(500_000, t.tq) % 256
    ensures t.tq == 8 && t.brp == 3
    ensures BitPeriods(CnfRegs(FieldsOf(t))) == 48
    ensures Fits(500_000, 10, 2)
  {
    BestOf(500_000);
    BestIsUnique(DivRound(NS_IN_S, 500_000), 8, t.tq);
    OddTicks(500_000, 8, 2);
    DecodedQuanta(t);
    DecodedBrp(t);
  }

  // ------------------------------------------------- the bits beside the timing

  lemma ModeBits(p1: bv8, p2: bv8, brp: bv8)
    requires 1 <= p1 && p1 <= 16 && 1 <= p2 && p2 <= 8
    ensures (0x80 | ((p1 - 1) << 3) | 1) & 0x80 != 0
    ensures ((0x80 | ((p1 - 1) << 3) | 1) & 0x40 == 0) == (p1 <= 8)
    ensures (p2 - 1) & 0xF8 == 0
    ensures ((brp - 1) >> 6 == 0) == (1 <= brp && brp <= 64)
  {
  }

  lemma FieldBits(f: Fields)
    requires f.sjw == 1 && f.propseg == 2 && 1 <= f.phseg1 && f.phseg1 <= 16 && 1 <= f.phseg2 && f.phseg2 <= 8
    ensures var c := CnfRegs(f);
            && c.cnf2 & 0x80 != 0 && c.cnf3 & 0xF8 == 0
            && (c.cnf2 & 0x40 == 0) == (f.phseg1 <= 8)
            && (c.cnf1 >> 6 == 0) == (1 <= f.brp && f.brp <= 64)
  {
    ModeBits(f.phseg1, f.phseg2, f.brp);
  }

  /** The mode bit is set and CNF3 holds phase 2 only; the bus is sampled once, and the
      synchronisation jump width is 1, exactly when phase 1 and the prescaler fit their fields. */
  lemma OtherBits(t: Timing)
    requires SegmentsOk(t) && t.brp < 256 && t.tq <= MAX_TQ_NUM
    ensures var c := CnfRegs(FieldsOf(t));
            && c.cnf2 & 0x80 != 0 && c.cnf3 & 0xF8 == 0
            && (c.cnf2 & 0x40 == 0 <==> t.tq <= 16)
            && (c.cnf1 >> 6 == 0 <==> 1 <= t.brp <= 64)
  {
    SmallByte(t.phseg1);
    SmallByte(t.phseg2);
    ByteRange(t.brp);
    FieldBits(FieldsOf(t));
  }

  lemma MetIsSmall(baudrate: nat, t: Timing)
    requires baudrate in MET && SegmentsOk(t) && BestTq(DivRound(NS_IN_S, baudrate), t.tq)
    requires t.brp == Prescaler(baudrate, t.tq) % 256
    ensures t.tq <= 16 && 1 <= t.brp <= 64
  {
    BestOf(baudrate);
    BestIsUnique(DivRound(NS_IN_S, baudrate), t.tq, BestFor(baudrate));
    MetFits(baudrate);
    PrescalerSmall(baudrate, t.tq);
  }

  lemma PrescalerSmall(baudrate: nat, tq: nat)
    requires 0 < baudrate && 0 < tq && exists k: nat :: Fits(baudrate, tq, k)
    ensures 1 <= Prescaler(baudrate, tq) <= 64
  {
    var k: nat :| Fits(baudrate, tq, k);
    RoundingFinds(baudrate, tq, k);
  }

  // ------------------------------------------------------- set_baudrate as a whole

  datatype Setting = Written(c: Cnf) | Aborted

  /** set_baudrate with hw_set_bit_timing: for every 32-bit argument the controller is left running at
      the rate asked for exactly if that is one of the rates in MET. CNF2 has its mode bit set and
      CNF3 nothing but phase 2; at the rates in MET the bus is sampled once and the jump width is 1. */
  method SetBaudrate(baudrate: nat) returns (s: Setting)
    requires baudrate < TWO32
    ensures 1 <= baudrate <= MAX_BAUDRATE ==> s.Written?
    ensures s.Written? ==> (RunsAt(s.c, baudrate) <==> baudrate in MET)
    ensures s.Written? ==> s.c.cnf2 & 0x80 != 0 && s.c.cnf3 & 0xF8 == 0
    ensures s.Written? && baudrate in MET ==> s.c.cnf2 & 0x40 == 0 && s.c.cnf1 >> 6 == 0
  {
    var o := ComputeTiming(baudrate);
    if o.DivisionByZero? {
      return Aborted;
    }
    var f := FieldsOf(o.t);
    var c := CnfRegs(f);
    OtherBits(o.t);
    if baudrate <= MAX_BAUDRATE {
      MetExactly(baudrate, o.t);
      if baudrate in MET {
        MetIsSmall(baudrate, o.t);
      }
    } else {
      TooFast(BitPeriods(c), baudrate);
    }
    return Written(c);
  }

  lemma TooFast(periods: nat, baudrate: nat)
    requires OSC_FREQ < baudrate
    ensures periods * baudrate != OSC_FREQ
  {
    if 1 <= periods {
      Monotone(1, periods, baudrate);
    }
  }
}
