/**
 The arithmetic that the number tables of `strconv.py` rest on: the inverses
 that test divisibility, and the mantissas of the powers of ten.
 */
module NumberTables {
  import opened Arithmetic

  // --- divisibility by an odd number -------------------------------------------------------

  /**
   `_divisible_pow5`: multiplying by the inverse of `d` modulo `m` takes the
   multiples of `d` to the bottom of the range, and nothing else.
   */
  lemma {:induction false} DividesExactly(x: nat, d: nat, inv: nat, m: nat)
    requires d >= 1 && x < m && m > 1 && (d * inv) % m == 1
    ensures x % d == 0 <==> (x * inv) % m <= (m - 1) / d
  {
    var b := (d * inv) / m;
    assert d * inv == m * b + 1;
    if x % d == 0 {
      var t := x / d;
      assert x == d * t;
      Bottom(t, d, inv, m, b);
      QuotientBound(t, d, m - 1);
    }
    if (x * inv) % m <= (m - 1) / d { OnlyMultiples(x, d, inv, m, b); }
  }

  lemma {:induction false} QuotientBound(t: nat, d: nat, n: nat)
    requires d >= 1 && d * t <= n
    ensures t <= n / d
  {
    var q := n / d;
    assert n == d * q + n % d;
    assert (q + 1) * d == d * q + d && t * d == d * t;
    if t >= q + 1 { MulMonotone(q + 1, t, d); }
  }

  /** The multiple `d * t` goes to `t`. */
  lemma {:induction false} Bottom(t: nat, d: nat, inv: nat, m: nat, b: nat)
    requires m > 1 && d >= 1 && d * inv == m * b + 1 && d * t < m
    ensures t < m && ((d * t) * inv) % m == t
  {
    MulMonotone(1, d, t);
    assert (d * t) * inv == t * (d * inv) by { Regroup(d, t, inv); Regroup(t, d, inv); }
    assert t * (m * b + 1) == (t * b) * m + t by {
      assert t * (m * b + 1) == t * (m * b) + t;
      Regroup(t, m, b);
      Regroup(t, b, m);
    }
    DivisionIsUnique((d * t) * inv, m, t * b, t);
  }

  lemma {:induction false} Combine(x: int, d: int, inv: int, m: int, a: int, b: int, q: int)
    requires x * inv == m * a + q && d * inv == m * b + 1
    ensures q * d == x + m * (x * b - a * d)
  {
    assert (x * inv) * d == x * (d * inv) by { Regroup(x, inv, d); Regroup(x, d, inv); }
    assert x * (m * b + 1) == m * (x * b) + x by {
      assert x * (m * b + 1) == x * (m * b) + x;
      Regroup(x, m, b);
      Regroup(m, x, b);
    }
    assert (m * a + q) * d == m * (a * d) + q * d by {
      assert (m * a + q) * d == (m * a) * d + q * d;
      Regroup(m, a, d);
    }
    assert m * (x * b) - m * (a * d) == m * (x * b - a * d);
  }

  lemma {:induction false} SameResidue(y: nat, x: nat, m: nat, k: int)
    requires y < m && x < m && y == x + m * k
    ensures y == x
  {
    assert m * k == k * m;
    if k >= 1 { MulMonotone(1, k, m); }
    if k <= -1 { MulMonotone(k, -1, m); }
  }

  /** Whatever lands at the bottom was a multiple. */
  lemma {:induction false} OnlyMultiples(x: nat, d: nat, inv: nat, m: nat, b: nat)
    requires m > 1 && d >= 1 && x < m && d * inv == m * b + 1 && (x * inv) % m <= (m - 1) / d
    ensures x % d == 0
  {
    var a, q := (x * inv) / m, (x * inv) % m;
    assert x * inv == m * a + q;
    MulMonotone(q, (m - 1) / d, d);
    assert m - 1 == d * ((m - 1) / d) + (m - 1) % d;
    assert ((m - 1) / d) * d == d * ((m - 1) / d);
    Combine(x, d, inv, m, a, b, q);
    assert q * d >= 0;
    SameResidue(q * d, x, m, x * b - a * d);
    DivisionIsUnique(x, d, q, 0);
  }

  /** An odd number's inverse modulo a power of two, a bit at a time. */
  function Inverse(d: nat, bits: nat): (r: nat)
    ensures r < Pow(2, bits)
  {
    if bits == 0 then 0
    else if (d * Inverse(d, bits - 1)) % Pow(2, bits) == 1 % Pow(2, bits) then Inverse(d, bits - 1)
    else Inverse(d, bits - 1) + Pow(2, bits - 1)
  }

  /** There is one for every odd number, which is what lets `pow(d, -1, 1 << 64)` answer. */
  lemma {:induction false} InverseWorks(d: nat, bits: nat)
    requires d % 2 == 1
    ensures (d * Inverse(d, bits)) % Pow(2, bits) == 1 % Pow(2, bits)
  {
    if bits > 0 {
      InverseWorks(d, bits - 1);
      var h, i := Pow(2, bits - 1), Inverse(d, bits - 1);
      if (d * i) % (2 * h) != 1 % (2 * h) { NextBit(d, i, h); }
    }
  }

  /** Right modulo `h`: one more than an even or an odd multiple of it. */
  lemma {:induction false} Residue(x: nat, h: nat) returns (q: int)
    requires h >= 1 && x % h == 1 % h
    ensures x - 1 == q * h
  {
    if h == 1 {
      q := x - 1;
    } else {
      q := x / h;
      DivisionIsUnique(1, h, 0, 1);
      assert x == h * q + 1;
    }
  }

  lemma {:induction false} EvenIsRight(x: nat, h: nat, t: int)
    requires h >= 1 && x - 1 == t * (2 * h)
    ensures x % (2 * h) == 1 % (2 * h)
  {
    DivisionIsUnique(x, 2 * h, t, 1);
    DivisionIsUnique(1, 2 * h, 0, 1);
  }

  /** If the inverse is right modulo `h` and not modulo `2h`, the missing bit puts it right. */
  lemma {:induction false} NextBit(d: nat, i: nat, h: nat)
    requires d % 2 == 1 && h >= 1 && (d * i) % h == 1 % h && (d * i) % (2 * h) != 1 % (2 * h)
    ensures (d * (i + h)) % (2 * h) == 1 % (2 * h)
  {
    var q := Residue(d * i, h);
    if q % 2 == 0 { EvenMultiple(d * i, h, q); }
    OddMultiple(d, i, h, q);
  }

  lemma {:induction false} EvenMultiple(x: nat, h: nat, q: int)
    requires h >= 1 && x - 1 == q * h && q % 2 == 0
    ensures x % (2 * h) == 1 % (2 * h)
  {
    var t := q / 2;
    assert q == t * 2;
    Regroup(t, 2, h);
    EvenIsRight(x, h, t);
  }

  lemma {:induction false} OddMultiple(d: nat, i: nat, h: nat, q: int)
    requires d % 2 == 1 && h >= 1 && d * i - 1 == q * h && q % 2 == 1
    ensures (d * (i + h)) % (2 * h) == 1 % (2 * h)
  {
    assert d * (i + h) == d * i + d * h;
    assert q * h + d * h == (q + d) * h;
    EvenMultiple(d * (i + h), h, q + d);
  }

  const WORD_BITS := 64
  const DIV5_MAX_POWER := 22

  lemma {:induction false} FiveTimes(x: int)
    requires x % 2 == 1
    ensures (5 * x) % 2 == 1
  {
  }

  lemma {:induction false} PowOdd(p: nat)
    ensures Pow(5, p) % 2 == 1
  {
    if p > 0 {
      PowOdd(p - 1);
      FiveTimes(Pow(5, p - 1));
    }
  }

  /** The test gives the right answer for one number of so many bits. */
  predicate TestIsRight(bits: nat, inverse: nat, maximum: nat, p: nat, x: nat) {
    x % Pow(5, p) == 0 <==> (x * inverse) % Pow(2, bits) <= maximum
  }

  /** What a row of the divisibility table has to be. */
  ghost predicate RightFor5(bits: nat, inverse: nat, maximum: nat, p: nat) {
    forall x: nat :: x < Pow(2, bits) ==> TestIsRight(bits, inverse, maximum, p, x)
  }

  lemma {:induction false} InverseOfPower(bits: nat, p: nat)
    requires bits > 0
    ensures Pow(2, bits) > 1 && (Pow(5, p) * Inverse(Pow(5, p), bits)) % Pow(2, bits) == 1
  {
    var m := Pow(2, bits);
    assert m == 2 * Pow(2, bits - 1);
    PowOdd(p);
    InverseWorks(Pow(5, p), bits);
    DivisionIsUnique(1, m, 0, 1);
  }

  /** One turn of the loop of `div5_table`. */
  method OneInverse(bits: nat, p: nat) returns (inverse: nat, maximum: nat)
    requires bits > 0
    ensures RightFor5(bits, inverse, maximum, p)
  {
    inverse := Inverse(Pow(5, p), bits);
    maximum := (Pow(2, bits) - 1) / Pow(5, p);
    InverseOfPower(bits, p);
    forall x: nat | x < Pow(2, bits) ensures TestIsRight(bits, inverse, maximum, p, x) {
      DividesExactly(x, Pow(5, p), inverse, Pow(2, bits));
    }
  }

  /** `div5_table` */
  method Div5Table() returns (inverses: seq<nat>, maxima: seq<nat>)
    ensures |inverses| == |maxima| == DIV5_MAX_POWER
    ensures forall i :: 0 <= i < |inverses| ==> RightFor5(WORD_BITS, inverses[i], maxima[i], i + 1)
  {
    inverses, maxima := [], [];
    for p := 1 to DIV5_MAX_POWER + 1
      invariant |inverses| == |maxima| == p - 1
      invariant forall i :: 0 <= i < |inverses| ==> RightFor5(WORD_BITS, inverses[i], maxima[i], i + 1)
    {
      var inverse, maximum := OneInverse(WORD_BITS, p);
      inverses, maxima := inverses + [inverse], maxima + [maximum];
    }
  }

  // --- the powers of ten -----------------------------------------------------------------------

  /** `10^e`, as the exact fraction it is. */
  function Ten(e: int): (r: real)
    ensures r > 0.0
    decreases if e < 0 then -e else e
  {
    if e == 0 then 1.0 else if e > 0 then Ten(e - 1) * 10.0 else Ten(e + 1) / 10.0
  }

  /** `x * 2^s`, by doubling or by halving. */
  function Scaled(x: real, s: int): (r: real)
    requires x > 0.0
    ensures r > 0.0
    decreases if s < 0 then -s else s
  {
    if s == 0 then x else if s > 0 then Scaled(x, s - 1) * 2.0 else Scaled(x, s + 1) / 2.0
  }

  lemma {:induction false} PowGrows(n: nat)
    ensures Pow(2, n) > n
  {
    if n > 0 { PowGrows(n - 1); }
  }

  const LIMIT: real := 340282366920938463463374607431768211456.0   // 2^128

  /** How often a positive number can be doubled before it is past a limit. */
  function Doublings(r: real): nat
    requires r > 0.0
  {
    (LIMIT / r).Floor + 1
  }

  lemma {:induction false} DoublingsEnough(r: real)
    requires r > 0.0
    ensures r * Pow(2, Doublings(r)) as real >= LIMIT
  {
    var n := Doublings(r);
    PowGrows(n);
    assert n as real >= LIMIT / r;
    assert (LIMIT / r) * r == LIMIT;
    RealMonotone(LIMIT / r, Pow(2, n) as real, r);
  }

  lemma {:induction false} RealMonotone(a: real, b: real, k: real)
    requires a <= b && k >= 0.0
    ensures a * k <= b * k
  {
  }

  /** And how often one past the limit can be halved. */
  function Halvings(r: real): nat
    requires r > 0.0
  {
    (r / LIMIT).Floor + 1
  }

  lemma {:induction false} HalvingsEnough(r: real)
    requires r > 0.0
    ensures r < LIMIT * Pow(2, Halvings(r)) as real
  {
    var n := Halvings(r);
    PowGrows(n);
    assert r / LIMIT < n as real;
    assert (r / LIMIT) * LIMIT == r;
    RealMonotone(n as real, Pow(2, n) as real, LIMIT);
  }

  lemma {:induction false} PowDouble(n: nat, r: real)
    requires n > 0
    ensures r * Pow(2, n) as real == (r * 2.0) * Pow(2, n - 1) as real
  {
    assert Pow(2, n) as real == 2.0 * Pow(2, n - 1) as real;
  }

  /** The first loop: doubling until the limit is passed. */
  method DoubleUp(start: real) returns (r: real, ghost s: int)
    requires start > 0.0
    ensures r >= LIMIT && r == Scaled(start, s)
  {
    r, s := start, 0;
    ghost var n := Doublings(start);
    DoublingsEnough(start);
    while r < LIMIT
      invariant r > 0.0 && r == Scaled(start, s)
      invariant r * Pow(2, n) as real >= LIMIT
      decreases n
    {
      assert n > 0;
      PowDouble(n, r);
      r := r * 2.0;
      s := s + 1;
      n := n - 1;
    }
  }

  /** The second: halving until it is passed the other way. */
  method HalveDown(start: real, top: real, ghost up: int) returns (r: real, ghost s: int)
    requires start > 0.0 && top >= LIMIT && top == Scaled(start, up)
    ensures LIMIT / 2.0 <= r < LIMIT && r == Scaled(start, s)
  {
    r, s := top, up;
    ghost var n: nat := Halvings(top);
    HalvingsEnough(top);
    while r >= LIMIT
      invariant LIMIT / 2.0 <= r && r == Scaled(start, s)
      invariant r < LIMIT * Pow(2, n) as real
      decreases n
    {
      assert n > 0;
      PowDouble(n, LIMIT);
      r := r / 2.0;
      s := s - 1;
      n := n - 1;
    }
  }

  /** Both loops: the number scaled by powers of two until its top bit is the 128th. */
  method Normalise(start: real) returns (r: real, ghost s: int)
    requires start > 0.0
    ensures LIMIT / 2.0 <= r < LIMIT && r == Scaled(start, s)
  {
    var top, up := DoubleUp(start);
    r, s := HalveDown(start, top, up);
  }

  const HALF: nat := 0x1_0000_0000_0000_0000

  /** `hi` and `lo` are the top 128 bits of `10^e`, truncated. */
  ghost predicate Mantissa(e: int, hi: nat, lo: nat) {
    && HALF / 2 <= hi < HALF && lo < HALF
    && Truncated(e, hi * HALF + lo)
  }

  ghost predicate Truncated(e: int, d: nat) { exists s :: Truncates(e, d, s) }

  ghost predicate Truncates(e: int, d: nat, s: int) {
    d as real <= Scaled(Ten(e), s) < d as real + 1.0
  }

  /** One turn of the loop of `pow10_table`. */
  method OnePower(e: int) returns (hi: nat, lo: nat)
    ensures Mantissa(e, hi, lo)
  {
    var r, s := Normalise(Ten(e));
    var d := r.Floor;
    assert d as real <= r < d as real + 1.0;
    assert LIMIT / 2.0 == 170141183460469231731687303715884105728.0;
    assert 170141183460469231731687303715884105728 <= d < 340282366920938463463374607431768211456;
    hi, lo := d / HALF, d % HALF;
    assert d == hi * HALF + lo;
    assert Truncates(e, hi * HALF + lo, s);
  }

  const POW10_MIN := -348
  const POW10_MAX := 347

  /** `pow10_table` */
  method Pow10Table() returns (hi: seq<nat>, lo: seq<nat>)
    ensures |hi| == |lo| == POW10_MAX - POW10_MIN + 1
    ensures forall i :: 0 <= i < |hi| ==> Mantissa(POW10_MIN + i, hi[i], lo[i])
  {
    hi, lo := [], [];
    for e := POW10_MIN to POW10_MAX + 1
      invariant |hi| == |lo| == e - POW10_MIN
      invariant forall i :: 0 <= i < |hi| ==> Mantissa(POW10_MIN + i, hi[i], lo[i])
    {
      var h, l := OnePower(e);
      hi, lo := hi + [h], lo + [l];
    }
  }

  lemma {:induction false} Apart(x: real, s: int, t: int)
    requires x > 0.0 && s < t
    ensures Scaled(x, t) >= 2.0 * Scaled(x, s)
    decreases t - s
  {
    assert Scaled(x, t) == 2.0 * Scaled(x, t - 1);
    if s < t - 1 { Apart(x, s, t - 1); }
  }

  /** Two scalings of one number that both land in the top octave are the same scaling. */
  lemma {:induction false} SameScale(x: real, s: int, t: int)
    requires x > 0.0
    requires LIMIT / 2.0 <= Scaled(x, s) < LIMIT && LIMIT / 2.0 <= Scaled(x, t) < LIMIT
    ensures s == t
  {
    if s < t { Apart(x, s, t); }
    if t < s { Apart(x, t, s); }
  }

  lemma {:induction false} Bounds(hi: nat, lo: nat)
    requires HALF / 2 <= hi < HALF && lo < HALF
    ensures 170141183460469231731687303715884105728 <= hi * HALF + lo < 340282366920938463463374607431768211456
  {
  }

  lemma {:induction false} InOctave(d: nat, v: real)
    requires 170141183460469231731687303715884105728 <= d < 340282366920938463463374607431768211456
    requires d as real <= v < d as real + 1.0
    ensures LIMIT / 2.0 <= v < LIMIT && v.Floor == d
  {
    var up := d + 1;
    assert d as real + 1.0 == up as real;
    assert up as real <= 340282366920938463463374607431768211456 as real;
    assert d as real >= 170141183460469231731687303715884105728 as real;
  }

  /** A power of ten has one mantissa with its top bit set, so truncation is all the freedom there is. */
  lemma {:induction false} MantissaIsOne(e: int, hi: nat, lo: nat, hi2: nat, lo2: nat)
    requires Mantissa(e, hi, lo) && Mantissa(e, hi2, lo2)
    ensures hi == hi2 && lo == lo2
  {
    var d, d2 := hi * HALF + lo, hi2 * HALF + lo2;
    SameMantissa(e, d, d2) by {
      Bounds(hi, lo);
      Bounds(hi2, lo2);
    }
  }

  lemma {:induction false} SameMantissa(e: int, d: nat, d2: nat)
    requires Truncated(e, d) && Truncated(e, d2)
    requires 170141183460469231731687303715884105728 <= d < 340282366920938463463374607431768211456
    requires 170141183460469231731687303715884105728 <= d2 < 340282366920938463463374607431768211456
    ensures d == d2
  {
    var s :| Truncates(e, d, s);
    var t :| Truncates(e, d2, t);
    InOctave(d, Scaled(Ten(e), s));
    InOctave(d2, Scaled(Ten(e), t));
    SameScale(Ten(e), s, t);
  }
}
