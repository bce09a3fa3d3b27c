/**
 The wide decimal that float conversion falls back on: multiplying it by a
 power of two in place, from the last digit to the first, to a length known
 before the first digit is written.
 */
module DecimalShift {
  import opened Arithmetic
  import opened ShiftDigits

  const DIGITS_MAX := 800

  // --- digits -----------------------------------------------------------------------

  /** Digits without the zeros at their end. */
  function Trimmed(ds: seq<nat>): seq<nat> {
    if ds == [] || ds[|ds| - 1] != 0 then ds else Trimmed(ds[..|ds| - 1])
  }

  /** Digits with no zero in front are the digits of the number they spell. */
  lemma {:induction false} SpelledDigits(ds: seq<nat>)
    requires AreDigits(ds) && (ds != [] ==> ds[0] != 0)
    ensures Digits(Spelled(ds)) == ds
  {
    hide Pow;
    if ds != [] {
      var init, last := ds[..|ds| - 1], ds[|ds| - 1];
      SpelledDigits(init);
      if init != [] { SpelledPositive(init); }
      NextDigit(Spelled(init), last);
      assert ds == init + [last];
    }
  }

  lemma {:induction false} NextDigit(v: nat, c: nat)
    requires c <= 9 && (v > 0 || c > 0)
    ensures Digits(v * 10 + c) == Digits(v) + [c]
  {
    assert (v * 10 + c) / 10 == v && (v * 10 + c) % 10 == c;
  }

  lemma {:induction false} SpelledPositive(ds: seq<nat>)
    requires ds != [] && ds[0] != 0
    ensures Spelled(ds) > 0
  {
    if |ds| > 1 { SpelledPositive(ds[..|ds| - 1]); }
  }

  lemma {:induction false} TrimmedIs(ds: seq<nat>)
    ensures |Trimmed(ds)| <= |ds| && Trimmed(ds) == ds[..|Trimmed(ds)|]
    ensures Spelled(Trimmed(ds)) * Pow(10, |ds| - |Trimmed(ds)|) == Spelled(ds)
    ensures ds != [] && ds[0] != 0 ==> Trimmed(ds) != []
  {
    if ds != [] && ds[|ds| - 1] == 0 {
      var init := ds[..|ds| - 1];
      TrimmedIs(init);
      assert Pow(10, |ds| - |Trimmed(ds)|) == 10 * Pow(10, |init| - |Trimmed(init)|);
      Regroup(Spelled(Trimmed(init)), 10, Pow(10, |init| - |Trimmed(init)|));
    }
  }

  function Least(a: nat, b: nat): nat { if a < b then a else b }

  /** The digits there is room for. */
  function Kept(ds: seq<nat>): seq<nat> { ds[..Least(|ds|, DIGITS_MAX)] }

  /** A digit there was no room for was not zero. */
  ghost predicate Lost(ds: seq<nat>) {
    exists j :: DIGITS_MAX <= j < |ds| && ds[j] != 0
  }

  // --- the carry ------------------------------------------------------------------------

  /** What is written and what is carried make up what has been read, times the power. */
  ghost predicate Carrying(out: seq<nat>, n: nat, x: nat, p: nat) {
    AreDigits(out) && Spelled(out) + n * Pow(10, |out|) == x * p
  }

  /** One digit read, and one written. */
  lemma {:induction false} ReadStep(out: seq<nat>, n: nat, tail: seq<nat>, c: nat, p: nat)
    requires Carrying(out, n, Spelled(tail), p) && |tail| == |out|
    ensures Carrying(out, n + c * p, Spelled([c] + tail), p)
  {
    hide Pow, Spelled;
    SpelledSplit([c], tail);
    SpelledOne(c);
    var t := Pow(10, |out|);
    assert (n + c * p) * t == n * t + (c * p) * t;
    Regroup(c, t, p);
    assert (c * t + Spelled(tail)) * p == (c * t) * p + Spelled(tail) * p;
  }

  lemma {:induction false} TenOnce()
    ensures Pow(10, 1) == 10
  {
  }

  lemma {:induction false} WriteStep(out: seq<nat>, n: nat, x: nat, p: nat)
    requires Carrying(out, n, x, p)
    ensures Carrying([n % 10] + out, n / 10, x, p)
  {
    hide Pow, Spelled;
    var t := Pow(10, |out|);
    SpelledSplit([n % 10], out);
    SpelledOne(n % 10);
    assert |[n % 10] + out| == |out| + 1;
    PowSum(10, 1, |out|);
    TenOnce();
    assert n == 10 * (n / 10) + n % 10;
    Regroup(n / 10, 10, t);
    assert n * t == (10 * (n / 10)) * t + (n % 10) * t;
  }

  /** The carry stays below the power. */
  lemma {:induction false} CarrySmall(n: nat, c: nat, p: nat)
    requires n < p && c <= 9
    ensures n + c * p < 10 * p && (n + c * p) / 10 < p
  {
    MulMonotone(c, 9, p);
  }

  /** So what is carried through a machine word fits it. */
  lemma {:induction false} PowerFits(k: nat)
    requires k <= MAX_SHIFT
    ensures 10 * Pow(2, k) < 0x1_0000_0000_0000_0000
  {
    hide Pow;
    LargestPower();
    PowSum(2, MAX_SHIFT - k, k);
    MulMonotone(1, Pow(2, MAX_SHIFT - k), Pow(2, k));
  }

  lemma {:induction false} LargestPower()
    ensures Pow(2, 60) == 0x1000_0000_0000_0000
  {
    PowSum(2, 10, 10);
    PowSum(2, 20, 20);
    PowSum(2, 40, 20);
    assert Pow(2, 5) == 32 && Pow(2, 10) == 1024;
  }

  /** While something is carried, a digit is still to be written. */
  lemma {:induction false} MoreDigits(out: seq<nat>, n: nat, x: nat, p: nat)
    requires Carrying(out, n, x, p) && n > 0
    ensures x * p > 0 && |out| < |Digits(x * p)|
  {
    MulMonotone(1, n, Pow(10, |out|));
    DigitCount(x * p);
    if |out| >= |Digits(x * p)| { PowAbove(|Digits(x * p)|, |out|); }
  }

  /** When nothing is carried, what is written is the digits of the product. */
  lemma {:induction false} AllWritten(out: seq<nat>, x: nat, p: nat)
    requires Carrying(out, 0, x, p) && out != [] && out[0] != 0
    ensures out == Digits(x * p)
  {
    SpelledDigits(out);
  }

  // --- the decimal ------------------------------------------------------------------------

  /** Two spellings a power of two apart: the digits after, moved to the same unit, are the product. */
  ghost predicate Scaled(ds: seq<nat>, dp: int, k: nat, ds2: seq<nat>, dp2: int) {
    && dp2 - |ds2| >= dp - |ds|
    && Spelled(ds2) * Pow(10, (dp2 - |ds2|) - (dp - |ds|)) == Spelled(ds) * Pow(2, k)
  }

  lemma {:induction false} ScaledOn(a: seq<nat>, da: int, j: nat, b: seq<nat>, db: int, k: nat, c: seq<nat>, dc: int)
    requires Scaled(a, da, j, b, db) && Scaled(b, db, k, c, dc)
    ensures Scaled(a, da, j + k, c, dc)
  {
    var y, z := (db - |b|) - (da - |a|), (dc - |c|) - (db - |b|);
    PowSum(10, z, y);
    PowSum(2, j, k);
    Regroup(Spelled(c), Pow(10, z), Pow(10, y));
    Regroup(Spelled(b), Pow(2, k), Pow(10, y));
    Regroup(Spelled(a), Pow(2, j), Pow(2, k));
  }

  /** The cheat sheet's three strings. */
  datatype Cheats = Cheats(deltas: seq<nat>, starts: seq<nat>, digits: seq<nat>)

  ghost predicate RightCheats(t: Cheats) {
    forall k :: 0 <= k <= MAX_SHIFT ==> Finds(t.deltas, t.starts, t.digits, k)
  }

  /** The strings the generator writes are right for every shift a pass can make. */
  method WrittenCheats() returns (t: Cheats)
    ensures RightCheats(t)
  {
    var deltas, starts, cutoffs := LeftCheats();
    t := Cheats(deltas, starts, Joined(cutoffs));
  }

  /** A digit that is not zero stands past the end, if these stand from `w` on. */
  ghost predicate LostFrom(w: nat, out: seq<nat>) {
    exists q :: 0 <= q < |out| && w + q >= DIGITS_MAX && out[q] != 0
  }

  lemma {:induction false} LostNext(w: nat, digit: nat, out: seq<nat>)
    requires w > 0
    ensures LostFrom(w - 1, [digit] + out) <==> LostFrom(w, out) || (w - 1 >= DIGITS_MAX && digit != 0)
  {
    var more := [digit] + out;
    if q :| 0 <= q < |out| && w + q >= DIGITS_MAX && out[q] != 0 { assert more[q + 1] == out[q]; }
    if q :| 0 <= q < |more| && w - 1 + q >= DIGITS_MAX && more[q] != 0 {
      if q > 0 { assert out[q - 1] == more[q]; }
    }
    assert more[0] == digit;
  }

  class Decimal {
    const d: array<nat>
    var nd: nat
    var dp: int
    var trunc: bool

    ghost predicate Valid()
      reads this, d
    {
      && d.Length == DIGITS_MAX && nd <= DIGITS_MAX
      && AreDigits(d[..nd]) && (nd > 0 ==> d[0] != 0)
    }

    constructor ()
      ensures Valid() && nd == 0 && dp == 0 && !trunc && fresh(d)
    {
      d := new nat[DIGITS_MAX](_ => 0);
      nd, dp, trunc := 0, 0, false;
    }

    /** `_trim` */
    method Trim()
      requires nd <= d.Length
      modifies this`nd, this`dp
      ensures nd <= old(nd) && d[..nd] == Trimmed(d[..old(nd)])
      ensures dp == if nd == 0 then 0 else old(dp)
    {
      while nd > 0 && d[nd - 1] == 0
        invariant nd <= old(nd) <= d.Length && dp == old(dp) && Trimmed(d[..nd]) == Trimmed(d[..old(nd)])
      {
        assert d[..nd][..nd - 1] == d[..nd - 1];
        nd := nd - 1;
      }
      if nd == 0 { dp := 0; }
    }

    /** Where a digit goes: into its place, or past the end. */
    method Put(w: nat, digit: nat)
      requires d.Length == DIGITS_MAX
      modifies d, this`trunc
      ensures forall j :: 0 <= j < DIGITS_MAX ==> d[j] == if j == w then digit else old(d[j])
      ensures trunc == (old(trunc) || (w >= DIGITS_MAX && digit != 0))
    {
      if w < DIGITS_MAX { d[w] := digit; } else if digit != 0 { trunc := true; }
    }

    /** The digits from `w` on are these, as far as there is room, and `trunc` says what was lost of them. */
    ghost predicate Holds(w: nat, out: seq<nat>, before: bool)
      reads this`trunc, d
    {
      && d.Length == DIGITS_MAX
      && (forall q :: 0 <= q < |out| && w + q < DIGITS_MAX ==> d[w + q] == out[q])
      && (trunc <==> before || LostFrom(w, out))
    }

    /** One more digit in front of those that are written. */
    method PutNext(w: nat, digit: nat, ghost out: seq<nat>, ghost before: bool)
      requires w > 0 && Holds(w, out, before)
      modifies d, this`trunc
      ensures Holds(w - 1, [digit] + out, before)
      ensures forall j :: 0 <= j < w - 1 && j < DIGITS_MAX ==> d[j] == old(d[j])
    {
      LostNext(w, digit, out);
      Put(w - 1, digit);
      ghost var more := [digit] + out;
      forall q | 0 <= q < |more| && w - 1 + q < DIGITS_MAX ensures d[w - 1 + q] == more[q] {
        if q > 0 { assert more[q] == out[q - 1]; }
      }
    }

    /** The first loop: every digit read, one written for each, and the carry it leaves. */
    method ReadAll(k: nat, total: nat, ghost ds: seq<nat>, ghost before: bool) returns (w: nat, n: nat,
          ghost out: seq<nat>)
      requires Valid() && nd > 0 && 1 <= k <= MAX_SHIFT && nd <= total && ds == d[..nd] && before == trunc
      modifies d, this`trunc
      ensures w == total - nd && |out| == nd && Holds(w, out, before)
      ensures Carrying(out, n, Spelled(ds), Pow(2, k))
      ensures n == 0 ==> out[0] != 0
    {
      hide Spelled;
      var r: nat := nd;
      w, n, out := total, 0, [];
      assert ds[nd..] == [];
      NothingRead(k);
      while r > 0
        invariant r <= nd <= d.Length && |ds| == nd && w == r + (total - nd) && |out| == nd - r && n < Pow(2, k)
        invariant (forall j :: 0 <= j < r ==> d[j] == ds[j]) && Holds(w, out, before)
        invariant Carrying(out, n, Spelled(ds[r..]), Pow(2, k))
        invariant r == 0 && n == 0 ==> out[0] != 0
      {
        w, n, out := ReadOne(k, r, w, n, out, ds, before);
        r := r - 1;
      }
      assert ds[0..] == ds;
    }

    /** One turn of it. */
    method ReadOne(k: nat, r: nat, w: nat, n: nat, ghost out: seq<nat>, ghost ds: seq<nat>, ghost before: bool)
      returns (w': nat, n': nat, ghost out': seq<nat>)
      requires 0 < r <= |ds| <= DIGITS_MAX && AreDigits(ds) && ds[0] != 0 && r <= w
      requires |out| == |ds| - r && n < Pow(2, k)
      requires Holds(w, out, before) && Carrying(out, n, Spelled(ds[r..]), Pow(2, k))
      requires (forall j :: 0 <= j < r ==> d[j] == ds[j]) && k <= MAX_SHIFT
      modifies d, this`trunc
      ensures w' == w - 1 && |out'| == |out| + 1 && n' < Pow(2, k)
      ensures Holds(w', out', before) && Carrying(out', n', Spelled(ds[r - 1..]), Pow(2, k))
      ensures forall j :: 0 <= j < r - 1 ==> d[j] == ds[j]
      ensures r == 1 && n' == 0 ==> out'[0] != 0
    {
      hide Spelled, Carrying, AreDigits, Pow;
      var c := d[r - 1];
      DigitBelow(ds, r - 1);
      assert [c] + ds[r..] == ds[r - 1..];
      CarrySmall(n, c, Pow(2, k));
      PowerFits(k);
      ReadStep(out, n, ds[r..], c, Pow(2, k));
      var sum := n + c * Pow(2, k);
      assert sum < 0x1_0000_0000_0000_0000;
      WriteStep(out, sum, Spelled(ds[r - 1..]), Pow(2, k));
      if r == 1 { MulMonotone(1, c, Pow(2, k)); }
      PutNext(w, sum % 10, out, before);
      w', n', out' := w - 1, sum / 10, [sum % 10] + out;
    }

    /** The second: what is carried, digit by digit, until the front is reached. */
    method WriteRest(w0: nat, n0: nat, ghost out0: seq<nat>, ghost x: nat, ghost p: nat, ghost before: bool)
      returns (ghost out: seq<nat>)
      requires Holds(w0, out0, before) && Carrying(out0, n0, x, p) && out0 != [] && (n0 == 0 ==> out0[0] != 0)
      requires w0 + |out0| == |Digits(x * p)|
      modifies d, this`trunc
      ensures out == Digits(x * p) && Holds(0, out, before)
    {
      hide Spelled, Digits, Pow;
      var w: nat, n: nat := w0, n0;
      out := out0;
      while n > 0
        invariant w + |out| == |Digits(x * p)| && Holds(w, out, before) && Carrying(out, n, x, p)
        invariant out != [] && (n == 0 ==> out[0] != 0)
      {
        MoreDigits(out, n, x, p);
        WriteStep(out, n, x, p);
        PutNext(w, n % 10, out, before);
        out := [n % 10] + out;
        w := w - 1;
        n := n / 10;
      }
      AllWritten(out, x, p);
    }

    /** How many digits the shift adds, looked up and compared. */
    method Added(k: nat, t: Cheats) returns (delta: nat)
      requires Valid() && nd > 0 && 1 <= k <= MAX_SHIFT && RightCheats(t)
      ensures nd + delta == |Digits(Spelled(d[..nd]) * Pow(2, k))|
    {
      assert Finds(t.deltas, t.starts, t.digits, k);
      var less := PrefixIsLess(d[..nd], t.digits[t.starts[k]..t.starts[k + 1]]);
      Length(d[..nd], k);
      delta := t.deltas[k] - (if less then 1 else 0);
    }

    /**
     `_left_shift`: the digits of the number times `2^k`, as many as there is
     room for, without the zeros at the end; the point moved by the digits added;
     and a note if a digit that was not zero fell off.
     */
    method LeftShift(k: nat, t: Cheats)
      requires Valid() && nd > 0 && 1 <= k <= MAX_SHIFT && RightCheats(t)
      modifies this, d
      ensures Valid() && nd > 0
      ensures var y := Digits(Spelled(old(d[..nd])) * Pow(2, k));
        d[..nd] == Trimmed(Kept(y)) && dp == old(dp) + |y| - old(nd) && trunc == (old(trunc) || Lost(y))
    {
      ghost var ds, before := d[..nd], trunc;
      ghost var x, y := Spelled(ds), Digits(Spelled(ds) * Pow(2, k));
      var delta := Added(k, t);
      hide Digits, Spelled, Pow, Finds;
      var w, n, out := ReadAll(k, nd + delta, ds, before);
      out := WriteRest(w, n, out, x, Pow(2, k), before);
      nd := nd + delta;
      if nd >= DIGITS_MAX { nd := DIGITS_MAX; }
      dp := dp + delta;
      assert d[..nd] == Kept(y);
      Shifted(ds, k);
      Trim();
      TrimmedIs(Kept(y));
    }

    /** `shift` to the left, in passes: with nothing lost on the way, the number times `2^k` exactly. */
    method Shift(k: nat, t: Cheats)
      requires Valid() && RightCheats(t)
      modifies this, d
      ensures Valid() && (old(trunc) ==> trunc)
      ensures old(nd) > 0 && !trunc ==> Scaled(old(d[..nd]), old(dp), k, d[..nd], dp)
      ensures old(nd) == 0 ==> nd == 0 && dp == old(dp) && trunc == old(trunc)
    {
      if nd == 0 { return; }
      ghost var ds, point := d[..nd], dp;
      ScaledNot(ds, point);
      if k == 0 { return; }
      var left := k;
      while left > MAX_SHIFT
        invariant 0 < left <= k && Valid() && nd > 0 && (old(trunc) ==> trunc)
        invariant !trunc ==> Scaled(ds, point, k - left, d[..nd], dp)
      {
        Pass(MAX_SHIFT, t, ds, point, k - left);
        left := left - MAX_SHIFT;
      }
      Pass(left, t, ds, point, k - left);
    }

    /** One pass of it, after passes that come to `j`. */
    method Pass(k: nat, t: Cheats, ghost ds: seq<nat>, ghost point: int, ghost j: nat)
      requires Valid() && nd > 0 && 1 <= k <= MAX_SHIFT && RightCheats(t)
      requires !trunc ==> Scaled(ds, point, j, d[..nd], dp)
      modifies this, d
      ensures Valid() && nd > 0 && (old(trunc) ==> trunc)
      ensures !trunc ==> Scaled(ds, point, j + k, d[..nd], dp)
    {
      ghost var was, at := d[..nd], dp;
      LeftShift(k, t);
      if !trunc {
        Exact(was, at, k, d[..nd], dp);
        ScaledOn(ds, point, j, was, at, k, d[..nd], dp);
      }
    }
  }

  lemma {:induction false} NothingRead(k: nat)
    ensures Carrying([], 0, Spelled([]), Pow(2, k)) && 0 < Pow(2, k)
  {
  }

  lemma {:induction false} DigitBelow(ds: seq<nat>, i: nat)
    requires AreDigits(ds) && i < |ds|
    ensures ds[i] <= 9
  {
  }

  lemma {:induction false} ScaledNot(ds: seq<nat>, dp: int)
    ensures Scaled(ds, dp, 0, ds, dp)
  {
  }

  /** How long the product is, which is what the cheat sheet says. */
  lemma {:induction false} Length(ds: seq<nat>, k: nat)
    requires AreDigits(ds) && ds != [] && ds[0] != 0 && k > 0
    ensures Spelled(ds) > 0
    ensures |Digits(Spelled(ds) * Pow(2, k))|
      == |ds| + |Digits(Pow(2, k))| - (if PrefixLess(ds, Digits(Pow(5, k))) then 1 else 0)
    ensures |Digits(Pow(2, k))| >= 1
  {
    SpelledPositive(ds);
    SpelledDigits(ds);
    ShiftAdds(Spelled(ds), k);
    DigitCount(Pow(2, k));
  }

  /** The product's digits are digits, and the first is not zero. */
  lemma {:induction false} Shifted(ds: seq<nat>, k: nat)
    requires AreDigits(ds) && ds != [] && ds[0] != 0
    ensures var y := Digits(Spelled(ds) * Pow(2, k)); AreDigits(y) && y != [] && y[0] != 0 && Kept(y) != []
  {
    SpelledPositive(ds);
    MulMonotone(1, Spelled(ds), Pow(2, k));
    DigitsSpell(Spelled(ds) * Pow(2, k));
  }

  lemma {:induction false} ZerosEnd(a: seq<nat>, b: seq<nat>)
    requires forall j :: 0 <= j < |b| ==> b[j] == 0
    ensures Spelled(a + b) == Spelled(a) * Pow(10, |b|)
  {
    SpelledSplit(a, b);
    SpelledZeros(b);
  }

  lemma {:induction false} SpelledZeros(b: seq<nat>)
    requires forall j :: 0 <= j < |b| ==> b[j] == 0
    ensures Spelled(b) == 0
  {
    if b != [] { SpelledZeros(b[..|b| - 1]); }
  }

  /** With nothing lost, the digits kept spell the product. */
  lemma {:induction false} Exact(ds: seq<nat>, dp: int, k: nat, ds2: seq<nat>, dp2: int)
    requires var y := Digits(Spelled(ds) * Pow(2, k));
      ds2 == Trimmed(Kept(y)) && dp2 == dp + |y| - |ds| && !Lost(y)
    ensures Scaled(ds, dp, k, ds2, dp2)
  {
    hide Digits, Pow, Spelled, Trimmed;
    var y := Digits(Spelled(ds) * Pow(2, k));
    var kept := Kept(y);
    var rest := y[|kept|..];
    DigitsSpell(Spelled(ds) * Pow(2, k));
    TrimmedIs(kept);
    forall j | 0 <= j < |rest| ensures rest[j] == 0 { assert rest[j] == y[|kept| + j]; }
    assert y == kept + rest;
    ZerosEnd(kept, rest);
    PowSum(10, |kept| - |ds2|, |rest|);
    Regroup(Spelled(ds2), Pow(10, |kept| - |ds2|), Pow(10, |rest|));
  }
}
