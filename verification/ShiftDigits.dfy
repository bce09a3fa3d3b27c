/**
 How many decimal digits a left shift adds: the cheat sheet of `left_cheats`
 in `strconv.py`, and the prefix comparison that reads it.
 */
module ShiftDigits {
  import opened Arithmetic
  import opened NumberTables

  // --- decimal digits -----------------------------------------------------------------

  /** Python's `str` of a positive number, as digits. */
  function Digits(v: nat): (ds: seq<nat>) {
    if v == 0 then [] else Digits(v / 10) + [v % 10]
  }

  /** The number that digits spell. */
  function Spelled(ds: seq<nat>): nat {
    if ds == [] then 0 else Spelled(ds[..|ds| - 1]) * 10 + ds[|ds| - 1]
  }

  ghost predicate AreDigits(ds: seq<nat>) {
    forall i :: 0 <= i < |ds| ==> ds[i] <= 9
  }

  lemma {:induction false} DigitsSpell(v: nat)
    ensures AreDigits(Digits(v)) && Spelled(Digits(v)) == v
    ensures v > 0 ==> Digits(v) != [] && Digits(v)[0] != 0
  {
    if v > 0 {
      DigitsSpell(v / 10);
      assert Digits(v)[..|Digits(v)| - 1] == Digits(v / 10);
    }
  }

  /** A number has `n` digits exactly between two powers of ten. */
  lemma {:induction false} DigitCount(v: nat)
    requires v > 0
    ensures |Digits(v)| > 0 && Pow(10, |Digits(v)| - 1) <= v < Pow(10, |Digits(v)|)
  {
    if v >= 10 {
      DigitCount(v / 10);
    } else {
      assert Digits(v / 10) == [];
      assert Pow(10, 1) == 10 * Pow(10, 0);
    }
  }

  lemma {:induction false} PowAbove(m: nat, n: nat)
    requires m <= n
    ensures Pow(10, m) <= Pow(10, n)
  {
    if m < n { PowAbove(m, n - 1); }
  }

  /** And only one count fits. */
  lemma {:induction false} CountIs(v: nat, n: nat)
    requires n > 0 && Pow(10, n - 1) <= v < Pow(10, n)
    ensures |Digits(v)| == n
  {
    assert v > 0;
    DigitCount(v);
    var c := |Digits(v)|;
    if c < n { PowAbove(c, n - 1); }
    if n < c { PowAbove(n, c - 1); }
  }

  // --- the comparison -----------------------------------------------------------------

  /** `_prefix_is_less_than`: running out of digits comes before the cutoff. */
  predicate PrefixLess(x: seq<nat>, cutoff: seq<nat>) {
    if cutoff == [] then false
    else if x == [] then true
    else if x[0] != cutoff[0] then x[0] < cutoff[0]
    else PrefixLess(x[1..], cutoff[1..])
  }

  /** The same as the loop it is written as. */
  method PrefixIsLess(x: seq<nat>, cutoff: seq<nat>) returns (less: bool)
    ensures less == PrefixLess(x, cutoff)
  {
    for i := 0 to |cutoff|
      invariant i <= |x| && PrefixLess(x, cutoff) == PrefixLess(x[i..], cutoff[i..])
    {
      if i >= |x| { return true; }
      if x[i] != cutoff[i] { return x[i] < cutoff[i]; }
    }
    return false;
  }

  lemma {:induction false} SpelledBelow(ds: seq<nat>)
    requires AreDigits(ds)
    ensures Spelled(ds) < Pow(10, |ds|)
  {
    if ds != [] { SpelledBelow(ds[..|ds| - 1]); }
  }

  /** Digits split in two spell the one part moved up past the other. */
  lemma {:induction false} SpelledSplit(a: seq<nat>, b: seq<nat>)
    ensures Spelled(a + b) == Spelled(a) * Pow(10, |b|) + Spelled(b)
  {
    if b == [] {
      assert a + b == a;
    } else {
      var init := b[..|b| - 1];
      SpelledSplit(a, init);
      assert (a + b)[..|a + b| - 1] == a + init;
      assert (Spelled(a) * Pow(10, |init|)) * 10 == Spelled(a) * Pow(10, |b|) by {
        Regroup(Spelled(a), Pow(10, |init|), 10);
        assert Pow(10, |b|) == 10 * Pow(10, |init|);
      }
    }
  }

  /** For as many digits, coming before is being less. */
  lemma {:induction false} LessIsLess(x: seq<nat>, c: seq<nat>)
    requires AreDigits(x) && AreDigits(c) && |x| == |c|
    ensures PrefixLess(x, c) <==> Spelled(x) < Spelled(c)
  {
    if x != [] {
      var tx, tc, p := x[1..], c[1..], Pow(10, |x| - 1);
      LessIsLess(tx, tc);
      assert x == [x[0]] + tx && c == [c[0]] + tc;
      SpelledSplit([x[0]], tx);
      SpelledSplit([c[0]], tc);
      FrontDecides(x[0], c[0], Spelled(tx), Spelled(tc), p) by {
        SpelledBelow(tx);
        SpelledBelow(tc);
      }
      SpelledOne(x[0]);
      SpelledOne(c[0]);
    }
  }

  lemma {:induction false} SpelledOne(d: nat)
    ensures Spelled([d]) == d
  {
    assert [d][..0] == [];
  }

  lemma {:induction false} FrontDecides(a: nat, b: nat, r: nat, s: nat, p: nat)
    requires r < p && s < p
    ensures a < b ==> a * p + r < b * p + s
    ensures a > b ==> a * p + r > b * p + s
  {
    assert (a + 1) * p == a * p + p && (b + 1) * p == b * p + p;
    if a < b { MulMonotone(a + 1, b, p); }
    if a > b { MulMonotone(b + 1, a, p); }
  }

  /** A long number compares by its first digits. */
  lemma {:induction false} OnlyPrefix(x: seq<nat>, c: seq<nat>)
    requires |x| >= |c|
    ensures PrefixLess(x, c) <==> PrefixLess(x[..|c|], c)
  {
    if c != [] {
      OnlyPrefix(x[1..], c[1..]);
      assert x[..|c|][1..] == x[1..][..|c| - 1];
    }
  }

  /** A short one is less unless its digits are already more. */
  lemma {:induction false} ShortLess(x: seq<nat>, c: seq<nat>)
    requires AreDigits(x) && AreDigits(c) && |x| < |c|
    ensures PrefixLess(x, c) <==> Spelled(x) <= Spelled(c[..|x|])
  {
    var head := c[..|x|];
    LessIsLess(x, head);
    LessIsLess(head, x);
    ShortCases(x, c);
  }

  lemma {:induction false} ShortCases(x: seq<nat>, c: seq<nat>)
    requires |x| < |c|
    ensures PrefixLess(x, c) <==> !PrefixLess(c[..|x|], x)
  {
    if x == [] {
      assert c[..0] == [];
    } else {
      ShortCases(x[1..], c[1..]);
      assert c[..|x|][1..] == c[1..][..|x| - 1];
    }
  }

  // --- the theorem ----------------------------------------------------------------------

  lemma {:induction false} PowTens(k: nat)
    ensures Pow(2, k) * Pow(5, k) == Pow(10, k)
  {
    if k > 0 {
      PowTens(k - 1);
      var a, b := Pow(2, k - 1), Pow(5, k - 1);
      assert (2 * a) * (5 * b) == 10 * (a * b);
    }
  }

  /** The digits of `2^k` and of `5^k` are `k + 1` together. */
  lemma {:induction false} DigitsTogether(k: nat)
    requires k > 0
    ensures |Digits(Pow(2, k))| + |Digits(Pow(5, k))| == k + 1
  {
    var p, q := Pow(2, k), Pow(5, k);
    DigitCount(p);
    DigitCount(q);
    PowTens(k);
    FiveEnds(k);
    var d, m := |Digits(p)|, |Digits(q)|;
    NotTen(q, m - 1);
    // 10^(d-1) * 10^(m-1) < p * q < 10^d * 10^m
    MulMonotone(Pow(10, d - 1), p, Pow(10, m - 1));
    MulStrict(Pow(10, m - 1), q, p);
    assert p * Pow(10, m - 1) == Pow(10, m - 1) * p && p * q == q * p;
    PowSum(10, d - 1, m - 1);
    MulStrict(p, Pow(10, d), q);
    MulMonotone(q, Pow(10, m), Pow(10, d));
    assert Pow(10, d) * q == q * Pow(10, d) && Pow(10, m) * Pow(10, d) == Pow(10, d) * Pow(10, m);
    PowSum(10, d, m);
    if k <= d - 1 + (m - 1) { PowAbove(k, d - 1 + (m - 1)); }
    if k >= d + m { PowAbove(d + m, k); }
  }

  /** A power of five ends in a five. */
  lemma {:induction false} FiveEnds(k: nat)
    requires k > 0
    ensures Pow(5, k) % 10 == 5
  {
    if k > 1 { FiveEnds(k - 1); } else { assert Pow(5, 0) == 1; }
  }

  /** So it is no power of ten, unless it is a single digit. */
  lemma {:induction false} NotTen(q: nat, n: nat)
    requires q % 10 == 5
    ensures q != Pow(10, n)
  {
    if n > 0 { assert Pow(10, n) % 10 == 0; } else { assert Pow(10, 0) == 1; }
  }

  lemma {:induction false} LongDecides(h: nat, c: nat, r: nat, p: nat)
    requires r < p
    ensures h < c <==> h * p + r < c * p
  {
    FrontDecides(h, c, r, 0, p);
  }

  lemma {:induction false} ShortDecides(a: nat, b: nat, r: nat, p: nat)
    requires 0 < r < p
    ensures a <= b <==> a * p < b * p + r
  {
    FrontDecides(a, b, 0, r, p);
  }

  lemma {:induction false} LongMeans(xs: seq<nat>, cs: seq<nat>)
    requires AreDigits(xs) && AreDigits(cs) && |xs| >= |cs|
    ensures PrefixLess(xs, cs) <==> Spelled(xs) < Spelled(cs) * Pow(10, |xs| - |cs|)
  {
    var head, rest := xs[..|cs|], xs[|cs|..];
    OnlyPrefix(xs, cs);
    LessIsLess(head, cs);
    assert xs == head + rest;
    SpelledSplit(head, rest);
    SpelledBelow(rest);
    LongDecides(Spelled(head), Spelled(cs), Spelled(rest), Pow(10, |rest|));
  }

  /** A number that ends in a five spells something from any digit on. */
  lemma {:induction false} TailIsSome(cs: seq<nat>, rest: seq<nat>)
    requires cs != [] && rest != [] && rest[|rest| - 1] == cs[|cs| - 1] && Spelled(cs) % 10 == 5 && cs[|cs| - 1] <= 9
    ensures Spelled(rest) > 0
  {
    assert Spelled(cs) == Spelled(cs[..|cs| - 1]) * 10 + cs[|cs| - 1];
    assert Spelled(rest) == Spelled(rest[..|rest| - 1]) * 10 + rest[|rest| - 1];
  }

  lemma {:induction false} ShortMeans(xs: seq<nat>, cs: seq<nat>)
    requires AreDigits(xs) && AreDigits(cs) && |xs| < |cs| && Spelled(cs) % 10 == 5
    ensures PrefixLess(xs, cs) <==> Spelled(xs) * Pow(10, |cs| - |xs|) < Spelled(cs)
  {
    var head, rest := cs[..|xs|], cs[|xs|..];
    ShortLess(xs, cs);
    assert cs == head + rest;
    SpelledSplit(head, rest);
    SpelledBelow(rest);
    TailIsSome(cs, rest);
    ShortDecides(Spelled(xs), Spelled(head), Spelled(rest), Pow(10, |rest|));
  }

  lemma {:induction false} PrefixOf(xs: seq<nat>, cs: seq<nat>, x: nat, c: nat)
    requires AreDigits(xs) && AreDigits(cs) && Spelled(xs) == x && Spelled(cs) == c && c % 10 == 5
    ensures PrefixLess(xs, cs) ==
      (if |xs| >= |cs| then x < c * Pow(10, |xs| - |cs|) else x * Pow(10, |cs| - |xs|) < c)
  {
    if |xs| >= |cs| { LongMeans(xs, cs); } else { ShortMeans(xs, cs); }
  }

  /** Coming before the cutoff is being less than it, both written to the same length. */
  lemma {:induction false} PrefixMeans(x: nat, k: nat)
    requires x > 0 && k > 0
    ensures var n, m := |Digits(x)|, |Digits(Pow(5, k))|;
      PrefixLess(Digits(x), Digits(Pow(5, k))) ==
        (if n >= m then x < Pow(5, k) * Pow(10, n - m) else x * Pow(10, m - n) < Pow(5, k))
  {
    hide Pow, Digits, Spelled, PrefixLess;
    DigitsSpell(x);
    DigitsSpell(Pow(5, k));
    FiveEnds(k);
    PrefixOf(Digits(x), Digits(Pow(5, k)), x, Pow(5, k));
  }

  /** Whether a product reaches the next power of ten, asked of the factors. */
  lemma {:induction false} Reaches(x: nat, k: nat, n: nat, m: nat)
    requires n > 0 && m > 0 && m <= k + 1 && n + k >= m
    ensures (x * Pow(2, k) >= Pow(10, n + k - m)) ==
      (if n >= m then x >= Pow(5, k) * Pow(10, n - m) else x * Pow(10, m - n) >= Pow(5, k))
  {
    var p, q := Pow(2, k), Pow(5, k);
    PowTens(k);
    // multiply both sides by q: x * 10^k against q * 10^(n+k-m)
    Regroup(x, p, q);
    assert (x * p) * q == x * Pow(10, k);
    SameOrder(x * p, Pow(10, n + k - m), q);
    if n >= m {
      PowSum(10, n - m, k);
      Regroup(q, Pow(10, n - m), Pow(10, k));
      assert n - m + k == n + k - m;
      assert Pow(10, n + k - m) * q == (q * Pow(10, n - m)) * Pow(10, k);
      SameOrder(x, q * Pow(10, n - m), Pow(10, k));
    } else {
      PowSum(10, m - n, n + k - m);
      assert m - n + (n + k - m) == k;
      Regroup(x, Pow(10, m - n), Pow(10, n + k - m));
      assert x * Pow(10, k) == (x * Pow(10, m - n)) * Pow(10, n + k - m);
      assert Pow(10, n + k - m) * q == q * Pow(10, n + k - m);
      SameOrder(x * Pow(10, m - n), q, Pow(10, n + k - m));
    }
  }

  lemma {:induction false} SameOrder(a: int, b: int, k: int)
    requires k > 0
    ensures a >= b <==> a * k >= b * k
  {
    if a >= b { MulMonotone(b, a, k); } else { MulStrict(a, b, k); }
  }

  lemma {:induction false} ProductBetween(x: nat, p: nat, a: nat, b: nat, c: nat, d: nat)
    requires 0 < a <= x < b && 0 < c <= p < d
    ensures a * c <= x * p < b * d
  {
    MulMonotone(a, x, c);
    MulMonotone(c, p, x);
    assert x * c == c * x && p * x == x * p;
    MulStrict(x, b, p);
    MulMonotone(p, d, b);
    assert b * p == p * b && d * b == b * d;
  }

  /** The product of numbers with `n` and `d` digits has `n + d` of them or one fewer. */
  lemma {:induction false} CountBetween(x: nat, p: nat, y: nat, n: nat, d: nat)
    requires y == x * p && n > 0 && d > 0 && Pow(10, n - 1) <= x < Pow(10, n) && Pow(10, d - 1) <= p < Pow(10, d)
    ensures |Digits(y)| == if y >= Pow(10, n + d - 1) then n + d else n + d - 1
  {
    ProductBetween(x, p, Pow(10, n - 1), Pow(10, n), Pow(10, d - 1), Pow(10, d));
    PowSum(10, n, d);
    PowSum(10, n - 1, d - 1);
    assert Pow(10, (n + d - 1) - 1) <= y < Pow(10, n + d);
    CountIs(y, if y >= Pow(10, n + d - 1) then n + d else n + d - 1);
  }

  lemma {:induction false} ShiftCounts(x: nat, k: nat, y: nat, n: nat, d: nat, m: nat)
    requires x > 0 && k > 0 && y == x * Pow(2, k)
    requires n == |Digits(x)| && d == |Digits(Pow(2, k))| && m == |Digits(Pow(5, k))|
    ensures n > 0 && m > 0 && d + m == k + 1 && n + k >= m
    ensures |Digits(y)| == if y >= Pow(10, n + k - m) then n + d else n + d - 1
  {
    DigitCount(x);
    DigitCount(Pow(2, k));
    DigitCount(Pow(5, k));
    DigitsTogether(k);
    CountBetween(x, Pow(2, k), y, n, d);
    assert n + d - 1 == n + k - m;
  }

  /**
   A left shift by `k` adds as many digits as `2^k` has when the digits of the
   number do not come before those of `5^k`, and one fewer when they do.
   */
  lemma {:induction false} ShiftAdds(x: nat, k: nat)
    requires x > 0 && k > 0
    ensures |Digits(x * Pow(2, k))|
      == |Digits(x)| + |Digits(Pow(2, k))| - (if PrefixLess(Digits(x), Digits(Pow(5, k))) then 1 else 0)
  {
    var n, d, m := |Digits(x)|, |Digits(Pow(2, k))|, |Digits(Pow(5, k))|;
    ShiftCounts(x, k, x * Pow(2, k), n, d, m);
    ShiftPrefix(x, k, n, m);
  }

  lemma {:induction false} ShiftPrefix(x: nat, k: nat, n: nat, m: nat)
    requires x > 0 && k > 0 && n == |Digits(x)| && m == |Digits(Pow(5, k))| && n > 0 && 0 < m <= k + 1 && n + k >= m
    ensures x * Pow(2, k) >= Pow(10, n + k - m) <==> !PrefixLess(Digits(x), Digits(Pow(5, k)))
  {
    Reaches(x, k, n, m);
    PrefixMeans(x, k);
  }

  // --- the table --------------------------------------------------------------------------

  const MAX_SHIFT := 60

  function Joined(cutoffs: seq<seq<nat>>): seq<nat> {
    if cutoffs == [] then [] else Joined(cutoffs[..|cutoffs| - 1]) + cutoffs[|cutoffs| - 1]
  }

  /** What a reader of the table finds for a shift: the digit count of `2^k`, and the digits of `5^k`. */
  ghost predicate Finds(deltas: seq<nat>, starts: seq<nat>, all: seq<nat>, k: nat) {
    && k < |deltas| && k + 1 < |starts| && starts[k] <= starts[k + 1] <= |all|
    && deltas[k] == (if k == 0 then 0 else |Digits(Pow(2, k))|)
    && all[starts[k]..starts[k + 1]] == (if k == 0 then [] else Digits(Pow(5, k)))
  }

  /** The second loop: where each cutoff starts in all of them end to end. */
  method Starts(cutoffs: seq<seq<nat>>) returns (starts: seq<nat>)
    ensures |starts| == |cutoffs| + 1
    ensures forall j :: 0 <= j <= |cutoffs| ==> starts[j] == |Joined(cutoffs[..j])|
  {
    starts := [0];
    for i := 0 to |cutoffs|
      invariant |starts| == i + 1
      invariant forall j :: 0 <= j <= i ==> starts[j] == |Joined(cutoffs[..j])|
    {
      assert cutoffs[..i + 1][..i] == cutoffs[..i];
      starts := starts + [starts[i] + |cutoffs[i]|];
    }
  }

  /** `left_cheats` */
  method LeftCheats() returns (deltas: seq<nat>, starts: seq<nat>, cutoffs: seq<seq<nat>>)
    ensures |deltas| == |cutoffs| == MAX_SHIFT + 1 && |starts| == MAX_SHIFT + 2
    ensures forall k :: 0 <= k <= MAX_SHIFT ==> Finds(deltas, starts, Joined(cutoffs), k)
  {
    deltas, cutoffs := [0], [[]];
    for k := 1 to MAX_SHIFT + 1
      invariant |deltas| == |cutoffs| == k
      invariant forall j :: 0 <= j < k ==> deltas[j] == DeltaFor(j) && cutoffs[j] == CutoffFor(j)
    {
      deltas := deltas + [DeltaFor(k)];
      cutoffs := cutoffs + [CutoffFor(k)];
    }
    starts := Starts(cutoffs);
    forall k | 0 <= k <= MAX_SHIFT ensures Finds(deltas, starts, Joined(cutoffs), k) {
      JoinedAt(cutoffs, k);
    }
  }

  function DeltaFor(k: nat): nat { if k == 0 then 0 else |Digits(Pow(2, k))| }

  function CutoffFor(k: nat): seq<nat> { if k == 0 then [] else Digits(Pow(5, k)) }

  /** A cutoff is found again between its start and the next. */
  lemma {:induction false} JoinedAt(cutoffs: seq<seq<nat>>, k: nat)
    requires k < |cutoffs|
    ensures var a, b := |Joined(cutoffs[..k])|, |Joined(cutoffs[..k + 1])|;
      a <= b <= |Joined(cutoffs)| && Joined(cutoffs)[a..b] == cutoffs[k]
    decreases |cutoffs|
  {
    var init := cutoffs[..|cutoffs| - 1];
    if k == |cutoffs| - 1 {
      assert cutoffs[..k + 1] == cutoffs && cutoffs[..k] == init;
    } else {
      JoinedAt(init, k);
      assert init[..k] == cutoffs[..k] && init[..k + 1] == cutoffs[..k + 1];
    }
  }
}
