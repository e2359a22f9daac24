/**
 The closed form of the condition under which the drain loop ends. Adding a period again and
 again in 64 bits reaches just the values that agree with the deadline in the low bits below
 the lowest set bit of the period, so a timer passes `now` if and only if the largest of them does.
 */
module TimerOrbit {
  import opened Words
  import opened TimerModel
  import opened TimerDrain
  import opened TimerEnds

  function Pow2(k: nat): (r: nat)
    ensures 0 < r
  {
    if k == 0 then 1 else 2 * Pow2(k - 1)
  }

  /** The largest power of two that divides p, up to the k-th. */
  function Grain(p: nat, k: nat): (g: nat)
    ensures 0 < g
    decreases k
  {
    if k == 0 || p % 2 == 1 then 1 else 2 * Grain(p / 2, k - 1)
  }

  // -------------------------------------------------------------- arithmetic

  lemma ModIs(x: nat, r: nat, z: int, w: nat)
    requires r < w && x == r + z * w
    ensures x % w == r
  {
    var q := x / w;
    assert x == q * w + x % w;
    if q < z { Product(q + 1, z, w); }
    if z < q { Product(z + 1, q, w); }
  }

  lemma Product(a: int, b: int, w: nat)
    requires a <= b
    ensures a * w <= b * w
  {
  }

  lemma Distribute(a: int, b: int, w: int)
    ensures (a + b) * w == a * w + b * w
  {
  }

  lemma Associate(a: int, b: int, c: int)
    ensures a * (b * c) == (a * b) * c
  {
  }

  lemma ModAdd(x: nat, y: nat, w: nat)
    requires 0 < w
    ensures (x % w + y) % w == (x + y) % w
  {
    var q, s := x / w, (x + y) / w;
    assert x == q * w + x % w && x + y == s * w + (x + y) % w;
    Distribute(s, -q, w);
    Distribute(s - q, q, w);
    ModIs(x % w + y, (x + y) % w, s - q, w);
  }

  lemma ModStep(d: nat, p: nat, n: nat, w: nat)
    requires 0 < n && 0 < w
    ensures ((d + p) % w + (n - 1) * p) % w == (d + n * p) % w
  {
    ModAdd(d + p, (n - 1) * p, w);
    Distribute(1, n - 1, p);
  }

  /** The n-th value is the sum, cut to 64 bits. */
  lemma {:induction false} AfterIs(d: nat, p: nat, n: nat)
    requires 0 < n
    ensures After(d, p, n) == (d + n * p) % TWO64
    decreases n
  {
    assert After(d, p, n) == After(Add64(d, p), p, n - 1);
    if n == 1 {
      assert n * p == p;
    } else {
      AfterIs(Add64(d, p), p, n - 1);
      ModStep(d, p, n, TWO64);
    }
  }

  /** The grain divides the period and 2^k; the rest of the period is odd, or the grain is 2^k. */
  lemma {:induction false} GrainDivides(p: nat, k: nat) returns (m: nat, r: nat)
    ensures p == Grain(p, k) * m && Pow2(k) == Grain(p, k) * r
    ensures m % 2 == 1 || r == 1
    decreases k
  {
    if k == 0 || p % 2 == 1 {
      m, r := p, Pow2(k);
    } else {
      m, r := GrainDivides(p / 2, k - 1);
      Associate(2, Grain(p / 2, k - 1), m);
      Associate(2, Grain(p / 2, k - 1), r);
    }
  }

  lemma Halve(x: nat, w: nat)
    requires x % 2 == 0
    ensures x * w == (x / 2) * (2 * w)
  {
    Associate(x / 2, 2, w);
  }

  lemma AddOdd(m: nat, e: nat, y: nat, w: nat)
    requires m * e == 1 + y * w
    ensures m * (e + w) == 1 + (y + m) * w
  {
    Distribute(y, m, w);
  }

  /** An odd number has an inverse modulo 2^k. */
  lemma {:induction false} Inverse(m: nat, k: nat) returns (e: nat, y: nat)
    requires m % 2 == 1
    ensures m * e == 1 + y * Pow2(k)
  {
    if k == 0 {
      e, y := 1, m - 1;
    } else {
      var e', y' := Inverse(m, k - 1);
      var w := Pow2(k - 1);
      if y' % 2 == 1 {
        AddOdd(m, e', y', w);
        Halve(y' + m, w);
        e, y := e' + w, (y' + m) / 2;
      } else {
        Halve(y', w);
        e, y := e', y' / 2;
      }
    }
  }

  lemma {:induction false} Pow2Add(a: nat, b: nat)
    ensures Pow2(a + b) == Pow2(a) * Pow2(b)
  {
    if a > 0 {
      Pow2Add(a - 1, b);
      Associate(2, Pow2(a - 1), Pow2(b));
    }
  }

  lemma Pow2Of64()
    ensures Pow2(64) == TWO64
  {
    assert Pow2(4) == 0x10;
    Pow2Add(4, 4);
    Pow2Add(8, 8);
    Pow2Add(16, 16);
    Pow2Add(32, 32);
  }

  // --------------------------------------------------------- the highest value

  /** The highest 64-bit value that adding p to d again and again reaches. */
  function Highest(d: nat, p: nat): int {
    var g := Grain(p, 64);
    TWO64 - g + d % g
  }

  /** v agrees with d in the bits below g, so it is at most the highest such value below w. */
  lemma AtMost(d: nat, x: nat, v: nat, z: int, g: nat, w: nat, r: nat)
    requires 0 < g && w == g * r && v < w && d + g * x == v + z * w
    ensures v <= w - g + d % g
  {
    var c, a := d / g, d / g + x - z * r;
    assert d == g * c + d % g;
    Associate(g, z, r);
    assert z * w == g * (z * r);
    Distribute(c + x, -(z * r), g);
    Distribute(c, x, g);
    assert v == a * g + d % g;
    if r <= a {
      Product(r, a, g);
    } else {
      Product(a, r - 1, g);
      Distribute(r, -1, g);
    }
  }

  lemma SumAtMost(d: nat, p: nat, n: nat, k: nat)
    ensures (d + n * p) % Pow2(k) <= Pow2(k) - Grain(p, k) + d % Grain(p, k)
  {
    var g, w := Grain(p, k), Pow2(k);
    var m, r := GrainDivides(p, k);
    Cut(d + n * p, w);
    Associate(n, g, m);
    Associate(g, n, m);
    AtMost(d, n * m, (d + n * p) % w, (d + n * p) / w, g, w, r);
  }

  /** No number of periods goes beyond the highest value. */
  lemma NeverAbove(d: nat, p: nat, n: nat)
    requires 0 < n
    ensures After(d, p, n) <= Highest(d, p)
  {
    Pow2Of64();
    AfterIs(d, p, n);
    SumAtMost(d, p, n, 64);
  }

  lemma Cut(x: nat, w: nat)
    requires 0 < w
    ensures x == x % w + (x / w) * w && x % w < w
  {
  }

  /** With e the inverse of the odd part m of the period, the sum after e * t periods is the highest
      value, cut to w. */
  lemma SumReaches(d: nat, m: nat, e: nat, y: nat, g: nat, w: nat, r: nat)
    requires 0 < g && w == g * r && 1 <= r && m * e == 1 + y * w
    ensures var c := d / g;
            var t := (c + 1) * (r - 1);
            d + (e * t) * (g * m) == w - g + d % g + (c + g * t * y) * w
  {
    var c := d / g;
    var t := (c + 1) * (r - 1);
    Cut(d, g);
    Rearrange(e, t, g, m);
    SmallPart(c, g, r);
    LargePart(m * e, y, w, g * t, c);
  }

  lemma LargePart(u: nat, y: nat, w: nat, x: nat, c: nat)
    requires u == 1 + y * w
    ensures u * x == x + (c + x * y) * w - c * w
  {
    Distribute(1, y * w, x);
    Associate(x, y, w);
    Distribute(c, x * y, w);
  }

  lemma Rearrange(e: nat, t: nat, g: nat, m: nat)
    ensures (e * t) * (g * m) == (m * e) * (g * t)
  {
    assert (e * t) * (g * m) == e * (t * (g * m));
    assert t * (g * m) == m * (g * t);
    assert (m * e) * (g * t) == e * (m * (g * t));
  }

  lemma SmallPart(c: nat, g: nat, r: nat)
    requires 1 <= r
    ensures c * g + g * ((c + 1) * (r - 1)) == g * r - g + c * (g * r)
  {
    Distribute(c, 1, r - 1);
    assert c * (r - 1) == c * r - c;
    Associate(g, c, r);
    assert g * (c * r) == c * (g * r);
    assert g * (c * r - c + (r - 1)) == g * (c * r) - g * c + g * r - g;
  }

  /** The grain is all of w: every sum is d, cut to w. */
  lemma WholeGrain(d: nat, m: nat, w: nat)
    requires 0 < w
    ensures (d + w * m) % w == d % w
  {
    Cut(d, w);
    Distribute(d / w, m, w);
    ModIs(d + w * m, d % w, d / w + m, w);
  }

  lemma Positive(a: nat, b: nat)
    requires 0 < a && 0 < b
    ensures 0 < a * b
  {
  }

  lemma OddPart(d: nat, m: nat, e: nat, y: nat, g: nat, w: nat, r: nat) returns (n: nat)
    requires 0 < g && w == g * r && 2 <= r && m * e == 1 + y * w && g <= w
    ensures 0 < n && (d + n * (g * m)) % w == w - g + d % g
  {
    var c := d / g;
    var t := (c + 1) * (r - 1);
    Product(1, r - 1, c + 1);
    Positive(e, t);
    n := e * t;
    SumReaches(d, m, e, y, g, w, r);
    Cut(d, g);
    var target: nat := w - g + d % g;
    ModIs(d + n * (g * m), target, c + g * t * y, w);
  }

  lemma SumIsHighest(d: nat, p: nat, k: nat) returns (n: nat)
    ensures 0 < n && (d + n * p) % Pow2(k) == Pow2(k) - Grain(p, k) + d % Grain(p, k)
  {
    var g := Grain(p, k);
    var m, r := GrainDivides(p, k);
    if r <= 1 {
      assert r == 1 && g == Pow2(k);
      n := 1;
      WholeGrain(d, m, g);
    } else {
      var e, y := Inverse(m, k);
      Product(1, r, g);
      n := OddPart(d, m, e, y, g, Pow2(k), r);
    }
  }

  /** And some number of periods reaches it. */
  lemma ReachesHighest(d: nat, p: nat) returns (n: nat)
    ensures 0 < n && After(d, p, n) == Highest(d, p)
  {
    Pow2Of64();
    n := SumIsHighest(d, p, 64);
    AfterIs(d, p, n);
  }

  // -------------------------------------------------------------- the condition

  lemma CanPassIff(c: Cell, now: nat)
    ensures CanPass(c, now) <==> now < c.deadline || now < Highest(c.deadline, c.period)
  {
    var n := ReachesHighest(c.deadline, c.period);
    if now < Highest(c.deadline, c.period) {
      assert Passes(c, now, n);
    }
    if now < c.deadline {
      assert Passes(c, now, 0);
    }
    if m: nat :| Passes(c, now, m) {
      if m > 0 {
        NeverAbove(c.deadline, c.period, m);
      }
    }
  }

  /** In every state the drain loop ends exactly when the clock lies below the highest value that
      each due periodic timer can reach. */
  lemma DrainEndsBelow(s: Server)
    requires WellFormed(s)
    ensures Ends(s) <==> forall k | DuePeriodic(s.cells, k, s.now) :: s.now < Highest(s.cells[k].deadline, s.cells[k].period)
  {
    DrainEndsExactly(s);
    forall k | DuePeriodic(s.cells, k, s.now)
      ensures CanPass(s.cells[k], s.now) <==> s.now < Highest(s.cells[k].deadline, s.cells[k].period)
    {
      CanPassIff(s.cells[k], s.now);
    }
  }
}
