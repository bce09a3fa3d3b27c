/**
 Runs packed into 64-bit words, the tables laid end to end in one array, and
 the searches that answer whether a code point is in one.
 */
module UnicodeWords {
  import opened Common
  import opened Arithmetic
  import opened UnicodeRuns

  // --- bits -----------------------------------------------------------------------------

  /** `|` and `&`, a bit at a time. */
  function Or(a: nat, b: nat): nat {
    if a == 0 then b
    else if b == 0 then a
    else 2 * Or(a / 2, b / 2) + (if a % 2 == 1 || b % 2 == 1 then 1 else 0)
  }

  function And(a: nat, b: nat): nat {
    if a == 0 || b == 0 then 0
    else 2 * And(a / 2, b / 2) + (if a % 2 == 1 && b % 2 == 1 then 1 else 0)
  }

  function Shl(a: nat, k: nat): nat { if k == 0 then a else 2 * Shl(a, k - 1) }

  function Shr(a: nat, k: nat): nat { if k == 0 then a else Shr(a / 2, k - 1) }

  lemma {:induction false} ShlIsTimes(a: nat, k: nat)
    ensures Shl(a, k) == a * Pow(2, k)
  {
    if k > 0 { ShlIsTimes(a, k - 1); }
  }

  lemma {:induction false} ShrIsOver(a: nat, k: nat)
    ensures Shr(a, k) == a / Pow(2, k)
    decreases k
  {
    if k > 0 {
      ShrIsOver(a / 2, k - 1);
      Halves(a, Pow(2, k - 1));
    }
  }

  /** Taking half of a number first leaves the quotient, and loses the last bit of the remainder. */
  lemma {:induction false} Halves(w: nat, m: nat)
    requires m > 0
    ensures w / (2 * m) == (w / 2) / m && w % (2 * m) == 2 * ((w / 2) % m) + w % 2
  {
    var q, r := (w / 2) / m, (w / 2) % m;
    assert w / 2 == m * q + r;
    assert m * q == q * m && q * (2 * m) == 2 * (q * m);
    DivisionIsUnique(w, 2 * m, q, 2 * r + w % 2);
  }

  /** Where the bits do not overlap, or is plus. */
  lemma {:induction false} OrIsPlus(a: nat, b: nat, k: nat)
    requires a < Pow(2, k)
    ensures Or(a, Shl(b, k)) == a + Shl(b, k)
    decreases k
  {
    if k > 0 { OrIsPlus(a / 2, b, k - 1); }
  }

  /** A mask of low bits is a remainder. */
  lemma {:induction false} MaskIsRemainder(w: nat, k: nat)
    ensures And(w, Pow(2, k) - 1) == w % Pow(2, k)
    decreases k
  {
    if k > 0 {
      MaskIsRemainder(w / 2, k - 1);
      Halves(w, Pow(2, k - 1));
      assert (Pow(2, k) - 1) / 2 == Pow(2, k - 1) - 1 && (Pow(2, k) - 1) % 2 == 1;
    }
  }

  // --- one run in one word ------------------------------------------------------------

  const FIELD := 0x20_0000   // 1 << 21
  const HIGH := 0x400_0000_0000   // 1 << 42

  lemma {:induction false} Powers()
    ensures Pow(2, 21) == FIELD && Pow(2, 22) == 2 * FIELD && Pow(2, 42) == HIGH
  {
    PowSum(2, 10, 10);
    PowSum(2, 1, 20);
    PowSum(2, 1, 21);
    PowSum(2, 21, 21);
    assert Pow(2, 1) == 2 && Pow(2, 5) == 32 && Pow(2, 10) == 0x400;
  }

  /** What a run is packed into, as a sum. */
  function Word(r: Run): int {
    r.lo + r.hi * FIELD + r.stride * HIGH
  }

  /** `lo | (hi << 21) | (stride << 42)` is that sum. */
  lemma {:induction false} WordBits(r: Run)
    requires 0 <= r.lo < FIELD && 0 <= r.hi < FIELD && 0 <= r.stride
    ensures Word(r) == Or(Or(r.lo, Shl(r.hi, 21)), Shl(r.stride, 42))
  {
    Powers();
    ShlIsTimes(r.hi, 21);
    ShlIsTimes(r.stride, 42);
    OrIsPlus(r.lo, r.hi, 21);
    assert r.lo + r.hi * FIELD < HIGH;
    OrIsPlus(r.lo + r.hi * FIELD, r.stride, 42);
  }

  /** `_range_at` on one word, as quotients and remainders. */
  function Unpack(w: int): Run {
    Run(w % FIELD, (w / FIELD) % FIELD, (w / HIGH) % (2 * FIELD))
  }

  /** Which are its shifts and masks. */
  lemma {:induction false} UnpackBits(w: nat)
    ensures Unpack(w) == Run(And(w, 0x1F_FFFF), And(Shr(w, 21), 0x1F_FFFF), And(Shr(w, 42), 0x3F_FFFF))
  {
    Powers();
    ShrIsOver(w, 21);
    ShrIsOver(w, 42);
    MaskIsRemainder(w, 21);
    MaskIsRemainder(Shr(w, 21), 21);
    MaskIsRemainder(Shr(w, 42), 22);
  }

  lemma {:induction false} UnpackWord(r: Run)
    requires Fits(r)
    ensures Unpack(Word(r)) == r
  {
    var w := Word(r);
    var upper := r.hi + r.stride * FIELD;
    assert w == r.lo + upper * FIELD;
    assert w / FIELD == upper;
  }

  function Words(rs: seq<Run>): seq<int> {
    if rs == [] then [] else [Word(rs[0])] + Words(rs[1..])
  }

  lemma {:induction false} WordsAt(rs: seq<Run>)
    ensures |Words(rs)| == |rs| && forall i :: 0 <= i < |rs| ==> Words(rs)[i] == Word(rs[i])
  {
    if rs != [] { WordsAt(rs[1..]); }
  }

  /** The runs `count` words hold, from `at` on. */
  function RunsAt(words: seq<int>, at: nat, count: nat): (rs: seq<Run>)
    requires at + count <= |words|
    ensures |rs| == count && forall i :: 0 <= i < count ==> rs[i] == Unpack(words[at + i])
  {
    seq(count, i requires 0 <= i < count => Unpack(words[at + i]))
  }

  lemma {:induction false} RowsSmall(words: seq<int>, at: nat, count: nat)
    requires at + count <= |words|
    ensures forall i :: 0 <= i < count ==> RunsAt(words, at, count)[i].hi < FIELD
  {
  }

  // --- the searches ---------------------------------------------------------------------

  /** What the searches need of the rows: in order, and a stride to divide by. */
  ghost predicate Searchable(rs: seq<Run>) {
    && (forall i :: 0 <= i < |rs| ==> 0 <= rs[i].lo <= rs[i].hi && rs[i].stride >= 1)
    && (forall i, j :: 0 <= i < j < |rs| ==> rs[i].hi < rs[j].lo)
  }

  lemma {:induction false} OrderedSearchable(rs: seq<Run>)
    requires Ordered(rs)
    ensures Searchable(rs)
  {
  }

  /** The cast of a signed 32-bit rune to an unsigned one. */
  function Unsigned(r: int): int { r % 0x1_0000_0000 }

  predicate Int32(r: int) { -0x8000_0000 <= r < 0x8000_0000 }

  /** A row that a point lies within decides for the whole table. */
  lemma {:induction false} RowDecides(rs: seq<Run>, m: nat, c: int)
    requires Searchable(rs) && m < |rs| && rs[m].lo <= c <= rs[m].hi
    ensures Covers(rs, c) <==> rs[m].stride == 1 || (c - rs[m].lo) % rs[m].stride == 0
  {
    if Covers(rs, c) {
      var i :| 0 <= i < |rs| && InRun(rs[i], c);
      assert !(i < m) && !(m < i);
    }
    if rs[m].stride == 1 || (c - rs[m].lo) % rs[m].stride == 0 { assert InRun(rs[m], c); }
  }

  /** Between two rows there is nothing. */
  lemma {:induction false} GapDecides(rs: seq<Run>, m: nat, c: int)
    requires Searchable(rs) && m <= |rs|
    requires forall i :: 0 <= i < m ==> rs[i].hi < c
    requires m < |rs| ==> c < rs[m].lo
    ensures !Covers(rs, c)
  {
    forall i | m <= i < |rs| ensures c < rs[i].lo {
      if i > m { assert rs[m].hi < rs[i].lo; }
    }
  }

  /** `_in` of the XML tables. */
  method In(words: seq<int>, r: int, at: nat, count: nat) returns (found: bool)
    requires at + count <= |words| && Searchable(RunsAt(words, at, count)) && Int32(r)
    ensures found <==> Covers(RunsAt(words, at, count), r)
  {
    hide Unpack, Covers, RunsAt;
    ghost var rs := RunsAt(words, at, count);
    RowsSmall(words, at, count);
    if r < 0 { NegativeIsOut(rs, r); }
    var lo, hi := 0, count;
    while lo < hi
      invariant 0 <= lo <= hi <= count
      invariant forall i :: 0 <= i < lo ==> rs[i].hi < Unsigned(r)
      invariant forall i :: hi <= i < count ==> Unsigned(r) < rs[i].lo
    {
      var mid := lo + (hi - lo) / 2;
      var row := Unpack(words[at + mid]);
      assert row == rs[mid];
      if Unsigned(r) < row.lo {
        hi := mid;
        continue;
      }
      if Unsigned(r) > row.hi {
        lo := mid + 1;
        continue;
      }
      RowDecides(rs, mid, r);
      if row.stride == 1 { return true; }
      return (Unsigned(r) - row.lo) % row.stride == 0;
    }
    if r >= 0 { GapDecides(rs, lo, r); }
    return false;
  }

  const LINEAR_MAX := 18

  /** The scan that `_is16` and `_is32` start with on a short table. */
  method Scan(words: seq<int>, at: nat, count: nat, c: int) returns (found: bool)
    requires at + count <= |words| && Searchable(RunsAt(words, at, count))
    ensures found <==> Covers(RunsAt(words, at, count), c)
  {
    ghost var rs := RunsAt(words, at, count);
    for index := at to at + count
      invariant forall i :: 0 <= i < index - at ==> rs[i].hi < c
    {
      var row := Unpack(words[index]);
      assert row == rs[index - at];
      if c < row.lo {
        GapDecides(rs, index - at, c);
        return false;
      }
      if c <= row.hi {
        RowDecides(rs, index - at, c);
        return row.stride == 1 || (c - row.lo) % row.stride == 0;
      }
    }
    GapDecides(rs, count, c);
    return false;
  }

  /** Their binary search on a long one. */
  method Halve(words: seq<int>, at: nat, count: nat, c: int) returns (found: bool)
    requires at + count <= |words| && Searchable(RunsAt(words, at, count))
    ensures found <==> Covers(RunsAt(words, at, count), c)
  {
    ghost var rs := RunsAt(words, at, count);
    var low, high := at, at + count;
    while low < high
      invariant at <= low <= high <= at + count
      invariant forall i :: 0 <= i < low - at ==> rs[i].hi < c
      invariant forall i :: high - at <= i < count ==> c < rs[i].lo
    {
      var middle := (low + high) / 2;
      var row := Unpack(words[middle]);
      assert row == rs[middle - at];
      if row.lo <= c && c <= row.hi {
        RowDecides(rs, middle - at, c);
        return row.stride == 1 || (c - row.lo) % row.stride == 0;
      }
      if c < row.lo { high := middle; } else { low := middle + 1; }
    }
    GapDecides(rs, low - at, c);
    return false;
  }

  /** `_is16` */
  method Is16(words: seq<int>, at: nat, count: nat, c: int) returns (found: bool)
    requires at + count <= |words| && Searchable(RunsAt(words, at, count))
    ensures found <==> Covers(RunsAt(words, at, count), c)
  {
    if count <= LINEAR_MAX || c <= MAX_LATIN1 {
      found := Scan(words, at, count, c);
    } else {
      found := Halve(words, at, count, c);
    }
  }

  /** `_is32` */
  method Is32(words: seq<int>, at: nat, count: nat, c: int) returns (found: bool)
    requires at + count <= |words| && Searchable(RunsAt(words, at, count))
    ensures found <==> Covers(RunsAt(words, at, count), c)
  {
    if count <= LINEAR_MAX {
      found := Scan(words, at, count, c);
    } else {
      found := Halve(words, at, count, c);
    }
  }

  // --- a table in the array ----------------------------------------------------------------

  /** Where a table sits: its offset, how many runs of each width, and its Latin offset. */
  datatype Entry = Entry(at: nat, n16: nat, n32: nat, latin: nat)

  /** The words at an entry are a list's table. */
  ghost predicate Lies(words: seq<int>, e: Entry, codes: seq<int>) {
    && e.at + e.n16 + e.n32 <= |words|
    && RunsAt(words, e.at, e.n16) == TableOf(codes).r16
    && RunsAt(words, e.at + e.n16, e.n32) == TableOf(codes).r32
    && e.latin == TableOf(codes).latin
  }

  lemma {:induction false} SkipRuns(words: seq<int>, at: nat, count: nat, skip: nat)
    requires skip <= count && at + count <= |words|
    ensures RunsAt(words, at + skip, count - skip) == RunsAt(words, at, count)[skip..]
  {
  }

  lemma {:induction false} SkipSearchable(rs: seq<Run>, skip: nat)
    requires Searchable(rs) && skip <= |rs|
    ensures Searchable(rs[skip..])
  {
  }

  /** Above every row there is nothing. */
  lemma {:induction false} PastTheEnd(rs: seq<Run>, c: int)
    requires Searchable(rs) && (rs != [] ==> rs[|rs| - 1].hi < c)
    ensures !Covers(rs, c)
  {
    forall i | 0 <= i < |rs| ensures rs[i].hi < c {
      if i < |rs| - 1 { assert rs[i].hi < rs[|rs| - 1].lo; }
    }
  }

  /** Leaving the first `skip` rows out leaves out nothing above their last. */
  lemma {:induction false} SkipCovers(rs: seq<Run>, skip: nat, c: int)
    requires Searchable(rs) && skip <= |rs|
    ensures Covers(rs[skip..], c) ==> Covers(rs, c)
    ensures (forall i :: 0 <= i < skip ==> rs[i].hi < c) ==> (Covers(rs, c) ==> Covers(rs[skip..], c))
  {
    if Covers(rs[skip..], c) {
      var i :| 0 <= i < |rs[skip..]| && InRun(rs[skip..][i], c);
      assert InRun(rs[skip + i], c);
    }
    if Covers(rs, c) && forall i :: 0 <= i < skip ==> rs[i].hi < c {
      var i :| 0 <= i < |rs| && InRun(rs[i], c);
      assert InRun(rs[skip..][i - skip], c);
    }
  }

  /** What `_is_from` needs of the two halves of a table. */
  ghost predicate TwoWidths(low: seq<Run>, high: seq<Run>) {
    && Searchable(low) && Searchable(high)
    && (forall i :: 0 <= i < |low| ==> low[i].hi <= 0xFFFF)
    && (forall i :: 0 <= i < |high| ==> 0xFFFF < high[i].lo)
  }

  lemma {:induction false} NegativeIsOut(rs: seq<Run>, c: int)
    requires Searchable(rs) && c < 0
    ensures !Covers(rs, c)
  {
  }

  lemma {:induction false} HugeIsOut(rs: seq<Run>, c: int)
    requires Searchable(rs) && c >= FIELD && forall i :: 0 <= i < |rs| ==> rs[i].hi < FIELD
    ensures !Covers(rs, c)
  {
  }

  /** `_is_from`: the search over both widths, from row `skip` on. */
  method IsFrom(words: seq<int>, e: Entry, skip: nat, r: int) returns (found: bool)
    requires e.at + e.n16 + e.n32 <= |words| && skip <= e.n16 && Int32(r)
    requires TwoWidths(RunsAt(words, e.at + skip, e.n16 - skip), RunsAt(words, e.at + e.n16, e.n32))
    ensures found <==>
      Covers(RunsAt(words, e.at + skip, e.n16 - skip), r) || Covers(RunsAt(words, e.at + e.n16, e.n32), r)
  {
    hide Unpack, Covers, RunsAt;
    ghost var low, high := RunsAt(words, e.at + skip, e.n16 - skip), RunsAt(words, e.at + e.n16, e.n32);
    var c := Unsigned(r);
    RowsSmall(words, e.at + skip, e.n16 - skip);
    RowsSmall(words, e.at + e.n16, e.n32);
    if r < 0 {
      NegativeIsOut(low, r);
      NegativeIsOut(high, r);
      HugeIsOut(low, c);
      HugeIsOut(high, c);
    }
    if e.n16 > skip {
      var last := Unpack(words[e.at + e.n16 - 1]);
      assert last == low[|low| - 1];
      if c <= last.hi {
        GapDecides(high, 0, c);
        found := Is16(words, e.at + skip, e.n16 - skip, c);
        return;
      }
    }
    PastTheEnd(low, c);
    if e.n32 > 0 {
      var first := Unpack(words[e.at + e.n16]);
      assert first == high[0];
      if r >= 0 && c >= first.lo {
        found := Is32(words, e.at + e.n16, e.n32, c);
        return;
      }
      if c < first.lo { GapDecides(high, 0, c); }
    } else {
      GapDecides(high, 0, c);
    }
    return false;
  }

  lemma {:induction false} NarrowIsLow(codes: seq<int>, i: nat)
    requires CodeList(codes) && i < |TableOf(codes).r16|
    ensures 0 <= TableOf(codes).r16[i].hi <= 0xFFFF
  {
    var rs := TableOf(codes).r16;
    HalvesExpand(codes);
    ExpandEnds(rs[i]);
    ExpandHolds(rs[i], rs[i].hi);
    assert Covers(rs, rs[i].hi);
    TableExactly(codes, rs[i].hi);
  }

  lemma {:induction false} WideIsHigh(codes: seq<int>, i: nat)
    requires CodeList(codes) && i < |TableOf(codes).r32|
    ensures 0xFFFF < TableOf(codes).r32[i].lo <= TableOf(codes).r32[i].hi <= 0x10FFFF
  {
    var rs := TableOf(codes).r32;
    TableFits(codes);
    HalvesExpand(codes);
    ExpandEnds(rs[i]);
    ExpandHolds(rs[i], rs[i].lo);
    assert Covers(rs, rs[i].lo);
    TableExactly(codes, rs[i].lo);
  }

  lemma {:induction false} TableWidths(codes: seq<int>, skip: nat)
    requires CodeList(codes) && skip <= |TableOf(codes).r16|
    ensures TwoWidths(TableOf(codes).r16[skip..], TableOf(codes).r32)
  {
    var t := TableOf(codes);
    HalvesExpand(codes);
    forall i | 0 <= i < |t.r16| ensures t.r16[i].hi <= 0xFFFF { NarrowIsLow(codes, i); }
    forall i | 0 <= i < |t.r32| ensures 0xFFFF < t.r32[i].lo && t.r32[i].hi <= 0x10FFFF { WideIsHigh(codes, i); }
    OrderedSearchable(t.r16);
    OrderedSearchable(t.r32);
    SkipSearchable(t.r16, skip);
  }

  /** `is_in`: the packed table answers for exactly the list it was made from, negative runes included. */
  method IsIn(words: seq<int>, e: Entry, r: int, ghost codes: seq<int>) returns (found: bool)
    requires CodeList(codes) && Lies(words, e, codes) && Int32(r)
    ensures found <==> r in codes
  {
    TableWidths(codes, 0);
    assert TableOf(codes).r16[0..] == TableOf(codes).r16;
    found := IsFrom(words, e, 0, r);
    TableExactly(codes, r);
  }

  /** The rows from the Latin offset on answer for everything above Latin-1. */
  lemma {:induction false} PastLatin(codes: seq<int>, r: int)
    requires CodeList(codes)
    ensures var t := TableOf(codes);
      && t.latin <= |t.r16|
      && (r > MAX_LATIN1 || r < 0 ==> (Covers(t.r16[t.latin..], r) || Covers(t.r32, r) <==> r in codes))
  {
    var t := TableOf(codes);
    TableExactly(codes, r);
    HalvesExpand(codes);
    OrderedSearchable(t.r16);
    SkipCovers(t.r16, t.latin, r);
    if r < 0 { assert r !in codes; }
  }

  /** `_is_excluding_latin`: the same, for whoever has dealt with Latin-1 already. */
  method IsExcludingLatin(words: seq<int>, e: Entry, r: int, ghost codes: seq<int>) returns (found: bool)
    requires CodeList(codes) && Lies(words, e, codes) && Int32(r)
    ensures r > MAX_LATIN1 || r < 0 ==> (found <==> r in codes)
  {
    hide Covers, RunsAt, TableOf, CodeList;
    PastLatin(codes, r);
    TableWidths(codes, e.latin);
    SkipRuns(words, e.at, e.n16, e.latin);
    found := IsFrom(words, e, e.latin, r);
  }
}
