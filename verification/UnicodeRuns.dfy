/**
 Sets of code points as strided runs: the greedy pass of `ucd.py`, and what the
 runs expand to.
 */
module UnicodeRuns {
  import opened Common

  const MAX_LATIN1 := 0xFF

  /** An arithmetic progression of code points. */
  datatype Run = Run(lo: int, hi: int, stride: int)

  predicate Proper(r: Run) {
    0 <= r.lo <= r.hi && r.stride >= 1 && (r.hi - r.lo) % r.stride == 0
  }

  predicate InRun(r: Run, c: int) {
    r.stride >= 1 && r.lo <= c <= r.hi && (c - r.lo) % r.stride == 0
  }

  /** The run's code points, in order. */
  function Expand(r: Run): seq<int>
    requires Proper(r)
  {
    seq((r.hi - r.lo) / r.stride + 1, k => r.lo + k * r.stride)
  }

  ghost predicate AllProper(rs: seq<Run>) {
    forall i :: 0 <= i < |rs| ==> Proper(rs[i])
  }

  function ExpandAll(rs: seq<Run>): seq<int>
    requires AllProper(rs)
  {
    if rs == [] then [] else ExpandAll(rs[..|rs| - 1]) + Expand(rs[|rs| - 1])
  }

  ghost predicate Increasing(s: seq<int>) {
    forall i, j :: 0 <= i < j < |s| ==> s[i] < s[j]
  }

  /** Runs a binary search can be run over. */
  ghost predicate Ordered(rs: seq<Run>) {
    AllProper(rs) && forall i, j :: 0 <= i < j < |rs| ==> rs[i].hi < rs[j].lo
  }

  ghost predicate Covers(rs: seq<Run>, c: int) {
    exists i :: 0 <= i < |rs| && InRun(rs[i], c)
  }

  // --- arithmetic ------------------------------------------------------------------

  lemma {:induction false} Multiple(q: nat, d: int)
    requires d >= 1
    ensures (q * d) % d == 0 && (q * d) / d == q
  {
    var x := q * d;
    assert x == d * (x / d) + x % d;
    assert d * (q - x / d) == x % d;
    if q - x / d >= 1 { MulAtLeast(d, q - x / d); }
    if q - x / d <= -1 { MulAtLeast(d, x / d - q); }
  }

  lemma {:induction false} MulAtLeast(d: int, k: int)
    requires d >= 1 && k >= 1
    ensures d * k >= d
  {
  }

  lemma {:induction false} Whole(x: int, d: int)
    requires d >= 1 && x >= 0 && x % d == 0
    ensures x == (x / d) * d
  {
  }

  lemma {:induction false} QuotientMonotone(x: int, y: int, d: int)
    requires d >= 1 && 0 <= x <= y
    ensures 0 <= x / d <= y / d
  {
    assert x == d * (x / d) + x % d && y == d * (y / d) + y % d;
    assert d * (x / d) - d * (y / d) == d * (x / d - y / d);
    if x / d > y / d { MulAtLeast(d, x / d - y / d); }
  }

  lemma {:induction false} QuotientNext(x: int, d: int)
    requires d >= 1 && x >= 0 && x % d == 0
    ensures (x + d) / d == x / d + 1 && (x + d) % d == 0
  {
    Whole(x, d);
    assert x + d == (x / d + 1) * d;
    Multiple(x / d + 1, d);
  }

  // --- one run ---------------------------------------------------------------------

  /** Being in a run and being in what it expands to are the same. */
  lemma {:induction false} ExpandHolds(r: Run, c: int)
    requires Proper(r)
    ensures c in Expand(r) <==> InRun(r, c)
  {
    var n := (r.hi - r.lo) / r.stride;
    if c in Expand(r) {
      var k :| 0 <= k <= n && c == r.lo + k * r.stride;
      Multiple(k, r.stride);
      Whole(r.hi - r.lo, r.stride);
      if k < n {
        MulAtLeast(r.stride, n - k);
        assert n * r.stride - k * r.stride == r.stride * (n - k);
      }
      assert k * r.stride >= 0;
    }
    if InRun(r, c) {
      var k := (c - r.lo) / r.stride;
      Whole(c - r.lo, r.stride);
      QuotientMonotone(c - r.lo, r.hi - r.lo, r.stride);
      assert Expand(r)[k] == c;
    }
  }

  /** Starting a run, and both ways of making one longer. */
  lemma {:induction false} ExpandGrows(r: Run, code: int)
    requires Proper(r) && code > r.hi
    ensures Proper(Run(code, code, 1)) && Expand(Run(code, code, 1)) == [code]
    ensures r.lo == r.hi || code - r.hi == r.stride ==>
      Proper(Run(r.lo, code, code - r.hi)) && Expand(Run(r.lo, code, code - r.hi)) == Expand(r) + [code]
  {
    var d := code - r.hi;
    if r.lo == r.hi || d == r.stride {
      if r.lo == r.hi {
        assert (r.hi - r.lo) % d == 0;
      }
      QuotientNext(r.hi - r.lo, d);
      var n := (r.hi - r.lo) / d;
      Whole(r.hi - r.lo, d);
      assert (n + 1) * d == n * d + d;
      var longer := Run(r.lo, code, d);
      assert code - r.lo == r.hi - r.lo + d;
      assert Expand(longer)[n + 1] == code;
      if r.lo == r.hi {
        assert Expand(r) == [r.lo] && |Expand(longer)| == 2;
        assert Expand(longer)[0] == r.lo + 0 * d;
      }
      assert Expand(longer)[..n + 1] == Expand(r);
    }
  }

  lemma {:induction false} ExpandEnds(r: Run)
    requires Proper(r)
    ensures |Expand(r)| >= 1 && Expand(r)[0] == r.lo && Expand(r)[|Expand(r)| - 1] == r.hi
  {
    var n := (r.hi - r.lo) / r.stride;
    QuotientMonotone(0, r.hi - r.lo, r.stride);
    Whole(r.hi - r.lo, r.stride);
    assert Expand(r)[0] == r.lo + 0 * r.stride;
    assert Expand(r)[n] == r.lo + n * r.stride;
  }

  // --- the greedy pass ----------------------------------------------------------------

  /** What adding a code point above all others does to a list of runs. */
  function Extend(rs: seq<Run>, code: int): seq<Run> {
    if rs == [] then [Run(code, code, 1)]
    else
      var r := rs[|rs| - 1];
      if r.lo == r.hi || code - r.hi == r.stride then rs[..|rs| - 1] + [Run(r.lo, code, code - r.hi)]
      else rs + [Run(code, code, 1)]
  }

  function Greedy(codes: seq<int>): seq<Run> {
    if codes == [] then [] else Extend(Greedy(codes[..|codes| - 1]), codes[|codes| - 1])
  }

  lemma {:induction false} ExpandAppend(rs: seq<Run>, r: Run)
    requires AllProper(rs) && Proper(r)
    ensures AllProper(rs + [r]) && ExpandAll(rs + [r]) == ExpandAll(rs) + Expand(r)
  {
    assert (rs + [r])[..|rs|] == rs;
  }

  lemma {:induction false} LongerRun(init: seq<Run>, r: Run, code: int)
    requires AllProper(init) && Proper(r) && code > r.hi && (r.lo == r.hi || code - r.hi == r.stride)
    ensures var longer := Run(r.lo, code, code - r.hi);
      AllProper(init + [r]) && AllProper(init + [longer]) && ExpandAll(init + [longer]) == ExpandAll(init
            + [r]) + [code]
  {
    hide Expand, Proper, ExpandAll, AllProper;
    ExpandGrows(r, code);
    ExpandAppend(init, r);
    ExpandAppend(init, Run(r.lo, code, code - r.hi));
  }

  /** One more code point, in the last run or in a run of its own. */
  lemma {:induction false} ExtendExpands(rs: seq<Run>, code: int)
    requires AllProper(rs) && code >= 0 && (rs != [] ==> code > rs[|rs| - 1].hi)
    ensures var now := Extend(rs, code);
      && now != [] && AllProper(now) && ExpandAll(now) == ExpandAll(rs) + [code] && now[|now| - 1].hi == code
  {
    hide Expand, Proper, ExpandAll;
    ExpandOne(code);
    ExpandAppend(rs, Run(code, code, 1));
    if rs == [] {
      assert rs + [Run(code, code, 1)] == [Run(code, code, 1)];
    } else {
      var init, r := rs[..|rs| - 1], rs[|rs| - 1];
      assert rs == init + [r];
      if r.lo == r.hi || code - r.hi == r.stride { LongerRun(init, r, code); }
    }
  }

  lemma {:induction false} ExpandOne(code: int)
    requires code >= 0
    ensures Proper(Run(code, code, 1)) && Expand(Run(code, code, 1)) == [code]
  {
  }

  /** The greedy runs lose nothing and add nothing. */
  lemma {:induction false} GreedyExpands(codes: seq<int>)
    requires Increasing(codes) && forall i :: 0 <= i < |codes| ==> codes[i] >= 0
    ensures AllProper(Greedy(codes)) && ExpandAll(Greedy(codes)) == codes
    ensures codes != [] ==> Greedy(codes) != [] && Greedy(codes)[|Greedy(codes)| - 1].hi == codes[|codes| - 1]
  {
    hide Extend, Expand;
    if codes != [] {
      var init, code := codes[..|codes| - 1], codes[|codes| - 1];
      GreedyExpands(init);
      assert Greedy(init) != [] ==> init != [];
      ExtendExpands(Greedy(init), code);
      assert codes == init + [code];
    }
  }

  /**
   As few runs as a single pass can make: every run but the last has more than
   one code point, none could have taken in the first of the next, and a run
   of one is written with a stride of one.
   */
  ghost predicate Maximal(rs: seq<Run>) {
    && (forall i :: 0 <= i < |rs| - 1 ==> rs[i].lo < rs[i].hi && rs[i].hi + rs[i].stride != rs[i + 1].lo)
    && (forall i :: 0 <= i < |rs| ==> rs[i].lo == rs[i].hi ==> rs[i].stride == 1)
  }

  lemma {:induction false} ExtendMaximal(rs: seq<Run>, code: int)
    requires Maximal(rs) && (rs != [] ==> rs[|rs| - 1].lo <= rs[|rs| - 1].hi < code)
    ensures Maximal(Extend(rs, code))
  {
    var now := Extend(rs, code);
    forall i | 0 <= i < |now| - 1 ensures now[i].lo < now[i].hi && now[i].hi + now[i].stride != now[i + 1].lo {
      if i < |rs| - 1 { assert rs[i].hi + rs[i].stride != rs[i + 1].lo; }
    }
  }

  /** The greedy runs are as few as that. */
  lemma {:induction false} GreedyMaximal(codes: seq<int>)
    requires Increasing(codes) && forall i :: 0 <= i < |codes| ==> codes[i] >= 0
    ensures Maximal(Greedy(codes))
  {
    hide Extend, Expand;
    if codes != [] {
      var init, code := codes[..|codes| - 1], codes[|codes| - 1];
      GreedyMaximal(init);
      GreedyExpands(init);
      assert Greedy(init) != [] ==> init != [];
      ExtendMaximal(Greedy(init), code);
    }
  }

  /** A run of more than one code point without its last. */
  function Shorter(r: Run): Run {
    if r.hi - r.stride <= r.lo then Run(r.lo, r.lo, 1) else Run(r.lo, r.hi - r.stride, r.stride)
  }

  lemma {:induction false} ShorterExpands(r: Run)
    requires Proper(r) && r.lo < r.hi
    ensures Proper(Shorter(r)) && Expand(r) == Expand(Shorter(r)) + [r.hi]
    ensures Shorter(r).lo == Shorter(r).hi ==> r.hi - r.lo == r.stride
    ensures Shorter(r).lo < Shorter(r).hi ==> r.hi - Shorter(r).hi == r.stride && Shorter(r).stride == r.stride
    ensures Shorter(r).lo <= Shorter(r).hi < r.hi
  {
    var d := r.stride;
    Whole(r.hi - r.lo, d);
    var n := (r.hi - r.lo) / d;
    MulAtLeast(d, n);
    if n == 1 {
      ExpandGrows(Run(r.lo, r.lo, 1), r.hi);
    } else {
      assert r.hi - d - r.lo == (n - 1) * d;
      MulAtLeast(d, n - 1);
      Multiple(n - 1, d);
      ExpandGrows(Run(r.lo, r.hi - d, d), r.hi);
    }
  }

  lemma {:induction false} RunOfOne(r: Run)
    requires Proper(r) && r.lo == r.hi
    ensures Expand(r) == [r.lo]
  {
  }

  /** Taking the last code point off and putting it back gives the runs back. */
  lemma {:induction false} ExtendBack(init: seq<Run>, r: Run)
    requires Proper(r) && Maximal(init + [r])
    ensures r.lo < r.hi ==> Extend(init + [Shorter(r)], r.hi) == init + [r] && Maximal(init + [Shorter(r)])
    ensures r.lo == r.hi ==> Extend(init, r.hi) == init + [r] && Maximal(init)
  {
    var rs := init + [r];
    assert forall i :: 0 <= i < |init| ==> rs[i] == init[i];
    assert rs[|init|] == r;
    if r.lo < r.hi {
      ShorterExpands(r);
      var less := init + [Shorter(r)];
      assert less[..|init|] == init;
      assert forall i :: 0 <= i < |init| ==> less[i] == rs[i];
      assert forall i :: 0 <= i < |init| ==> rs[i].lo < rs[i].hi && rs[i].hi + rs[i].stride != rs[i + 1].lo;
    }
  }

  lemma {:induction false} IncreasingFront(s: seq<int>, x: int)
    requires Increasing(s + [x])
    ensures Increasing(s)
  {
    assert forall i :: 0 <= i < |s| ==> (s + [x])[i] == s[i];
  }

  /** And nothing else is: the runs of a list are the one way to write it so. */
  lemma {:induction false} GreedyUnique(rs: seq<Run>)
    requires AllProper(rs) && Maximal(rs) && Increasing(ExpandAll(rs))
    ensures Greedy(ExpandAll(rs)) == rs
    decreases |ExpandAll(rs)|
  {
    hide Expand, Proper, Maximal, Extend, Shorter;
    if rs != [] {
      var init, r := rs[..|rs| - 1], rs[|rs| - 1];
      var codes := ExpandAll(rs);
      assert rs == init + [r];
      ExtendBack(init, r);
      EndIsThere(rs, |rs| - 1);
      if r.lo < r.hi {
        ShorterExpands(r);
        ExpandAppend(init, Shorter(r));
        assert codes == ExpandAll(init + [Shorter(r)]) + [r.hi];
        IncreasingFront(ExpandAll(init + [Shorter(r)]), r.hi);
        GreedyUnique(init + [Shorter(r)]);
      } else {
        RunOfOne(r);
        assert codes == ExpandAll(init) + [r.lo];
        IncreasingFront(ExpandAll(init), r.lo);
        GreedyUnique(init);
      }
    }
  }

  /** `_pack`: extend the run while the gap is its stride, and start another when it is not. */
  method Pack(codes: seq<int>) returns (out: seq<Run>)
    ensures out == Greedy(codes)
    ensures Increasing(codes) && (forall i :: 0 <= i < |codes| ==> codes[i] >= 0) ==>
      AllProper(out) && ExpandAll(out) == codes && Maximal(out)
  {
    out := [];
    var current: Option<Run> := None;
    for i := 0 to |codes|
      invariant current.None? ==> out == []
      invariant out + (if current.Some? then [current.value] else []) == Greedy(codes[..i])
    {
      var code := codes[i];
      assert codes[..i + 1][..i] == codes[..i];
      if current.None? {
        current := Some(Run(code, code, 1));
        continue;
      }
      var r := current.value;
      assert (out + [r])[..|out|] == out;
      var stride := code - r.hi;
      if r.lo == r.hi || stride == r.stride {
        current := Some(Run(r.lo, code, stride));
      } else {
        out := out + [r];
        current := Some(Run(code, code, 1));
      }
    }
    assert codes[..|codes|] == codes;
    if current.Some? { out := out + [current.value]; }
    if Increasing(codes) && forall i :: 0 <= i < |codes| ==> codes[i] >= 0 {
      GreedyExpands(codes);
      GreedyMaximal(codes);
    }
  }

  // --- what the expansion says --------------------------------------------------------

  lemma {:induction false} ExpandAllHolds(rs: seq<Run>, c: int)
    requires AllProper(rs)
    ensures c in ExpandAll(rs) <==> Covers(rs, c)
  {
    hide Expand, InRun;
    if rs != [] {
      var init, last := rs[..|rs| - 1], rs[|rs| - 1];
      ExpandAllHolds(init, c);
      ExpandHolds(last, c);
      if Covers(rs, c) {
        var i :| 0 <= i < |rs| && InRun(rs[i], c);
        if i < |init| { assert InRun(init[i], c); }
      }
      if Covers(init, c) {
        var i :| 0 <= i < |init| && InRun(init[i], c);
        assert InRun(rs[i], c);
      }
      if InRun(last, c) { assert InRun(rs[|rs| - 1], c); }
    }
  }

  /** The end of a run is one of its code points. */
  lemma {:induction false} EndIsThere(rs: seq<Run>, i: nat)
    requires AllProper(rs) && i < |rs|
    ensures 0 <= rs[i].lo <= rs[i].hi && rs[i].hi in ExpandAll(rs)
  {
    hide ExpandAll, Expand;
    assert InRun(rs[i], rs[i].hi);
    ExpandAllHolds(rs, rs[i].hi);
  }

  /** Runs that expand to increasing code points are in order themselves. */
  lemma {:induction false} ExpandOrdered(rs: seq<Run>)
    requires AllProper(rs) && Increasing(ExpandAll(rs))
    ensures Ordered(rs)
  {
    hide Expand, Proper, InRun;
    if rs != [] {
      var init, last := rs[..|rs| - 1], rs[|rs| - 1];
      var front, back := ExpandAll(init), Expand(last);
      assert front == ExpandAll(rs)[..|front|];
      ExpandOrdered(init);
      ExpandEnds(last);
      assert ExpandAll(rs)[|front|] == back[0];
      forall i | 0 <= i < |init| ensures rs[i].hi < last.lo {
        EndIsThere(init, i);
        var k :| 0 <= k < |front| && front[k] == init[i].hi;
        assert ExpandAll(rs)[k] == front[k];
      }
    }
  }

  // --- a whole table --------------------------------------------------------------------

  /** The code points of `codes` that fit in sixteen bits, and those that do not. */
  function Below(codes: seq<int>): (r: seq<int>)
    ensures forall c :: c in r <==> c in codes && c <= 0xFFFF
  {
    if codes == [] then []
    else Below(codes[..|codes| - 1]) + (if codes[|codes| - 1] <= 0xFFFF then [codes[|codes| - 1]] else [])
  }

  function Above(codes: seq<int>): (r: seq<int>)
    ensures forall c :: c in r <==> c in codes && c > 0xFFFF
  {
    if codes == [] then []
    else Above(codes[..|codes| - 1]) + (if codes[|codes| - 1] > 0xFFFF then [codes[|codes| - 1]] else [])
  }

  lemma {:induction false} HalvesIncrease(codes: seq<int>)
    requires Increasing(codes)
    ensures Increasing(Below(codes)) && Increasing(Above(codes))
  {
    if codes != [] {
      var init, last := codes[..|codes| - 1], codes[|codes| - 1];
      HalvesIncrease(init);
      forall c | c in init ensures c < last {}
      forall i | 0 <= i < |Below(init)| ensures Below(init)[i] < last { assert Below(init)[i] in init; }
      forall i | 0 <= i < |Above(init)| ensures Above(init)[i] < last { assert Above(init)[i] in init; }
    }
  }

  /** A table: the runs of each width, and how many of the first lie within Latin-1. */
  datatype Table = Table(r16: seq<Run>, r32: seq<Run>, latin: nat)

  /** The table of a list of code points. */
  function TableOf(codes: seq<int>): Table {
    var r16 := Greedy(Below(codes));
    Table(r16, Greedy(Above(codes)), Leading(r16))
  }

  /** How many runs from the front stay within Latin-1. */
  function Leading(rs: seq<Run>): (n: nat)
    ensures n <= |rs| && (forall i :: 0 <= i < n ==> rs[i].hi <= MAX_LATIN1)
    ensures n < |rs| ==> rs[n].hi > MAX_LATIN1
  {
    if rs == [] || rs[0].hi > MAX_LATIN1 then 0 else 1 + Leading(rs[1..])
  }

  lemma {:induction false} LeadingIs(rs: seq<Run>, n: nat)
    requires n <= |rs| && (forall i :: 0 <= i < n ==> rs[i].hi <= MAX_LATIN1)
    requires n < |rs| ==> rs[n].hi > MAX_LATIN1
    ensures Leading(rs) == n
  {
    if n > 0 {
      assert rs[0].hi <= MAX_LATIN1;
      LeadingIs(rs[1..], n - 1);
    }
  }

  ghost predicate CodeList(codes: seq<int>) {
    Increasing(codes) && forall i :: 0 <= i < |codes| ==> 0 <= codes[i] <= 0x10FFFF
  }

  lemma {:induction false} HalvesExpand(codes: seq<int>)
    requires CodeList(codes)
    ensures Ordered(TableOf(codes).r16) && ExpandAll(TableOf(codes).r16) == Below(codes)
    ensures Ordered(TableOf(codes).r32) && ExpandAll(TableOf(codes).r32) == Above(codes)
  {
    HalvesIncrease(codes);
    forall i | 0 <= i < |Below(codes)| ensures Below(codes)[i] >= 0 { assert Below(codes)[i] in codes; }
    forall i | 0 <= i < |Above(codes)| ensures Above(codes)[i] >= 0 { assert Above(codes)[i] in codes; }
    GreedyExpands(Below(codes));
    GreedyExpands(Above(codes));
    ExpandOrdered(Greedy(Below(codes)));
    ExpandOrdered(Greedy(Above(codes)));
  }

  /** Both halves of a list in as few runs as a pass can make, and the leading runs that stay within Latin-1 counted. */
  ghost predicate TightTable(codes: seq<int>, t: Table) {
    && AllProper(t.r16) && AllProper(t.r32) && Maximal(t.r16) && Maximal(t.r32)
    && Increasing(ExpandAll(t.r16)) && Increasing(ExpandAll(t.r32))
    && (forall c :: c in ExpandAll(t.r16) <==> c in codes && c <= 0xFFFF)
    && (forall c :: c in ExpandAll(t.r32) <==> c in codes && c > 0xFFFF)
    && t.latin <= |t.r16| && (forall i :: 0 <= i < t.latin ==> t.r16[i].hi <= 0xFF)
    && (t.latin < |t.r16| ==> t.r16[t.latin].hi > 0xFF)
  }

  lemma {:induction false} TableTight(codes: seq<int>)
    requires CodeList(codes)
    ensures TightTable(codes, TableOf(codes))
  {
    HalvesExpand(codes);
    HalvesIncrease(codes);
    forall i | 0 <= i < |Below(codes)| ensures Below(codes)[i] >= 0 { assert Below(codes)[i] in codes; }
    forall i | 0 <= i < |Above(codes)| ensures Above(codes)[i] >= 0 { assert Above(codes)[i] in codes; }
    GreedyMaximal(Below(codes));
    GreedyMaximal(Above(codes));
  }

  /** There is one such table. */
  lemma {:induction false} TightUnique(codes: seq<int>, t: Table)
    requires CodeList(codes) && TightTable(codes, t)
    ensures t == TableOf(codes)
  {
    hide ExpandAll, Expand, Greedy, Proper;
    HalvesIncrease(codes);
    SameIncreasing(ExpandAll(t.r16), Below(codes));
    SameIncreasing(ExpandAll(t.r32), Above(codes));
    GreedyUnique(t.r16);
    GreedyUnique(t.r32);
    LeadingIs(t.r16, t.latin);
  }

  /** `runs` */
  method Runs(codes: seq<int>) returns (t: Table)
    ensures t == TableOf(codes)
    ensures CodeList(codes) ==> TightTable(codes, t)
  {
    var r16 := Pack(Below(codes));
    var r32 := Pack(Above(codes));
    var latin := 0;
    while latin < |r16| && r16[latin].hi <= MAX_LATIN1
      invariant latin <= |r16| && Leading(r16) == latin + Leading(r16[latin..])
    {
      latin := latin + 1;
    }
    t := Table(r16, r32, latin);
    if CodeList(codes) { TableTight(codes); }
  }

  /** Membership in a table's runs is membership in the list it was packed from. */
  lemma {:induction false} TableExactly(codes: seq<int>, c: int)
    requires CodeList(codes)
    ensures Ordered(TableOf(codes).r16) && Ordered(TableOf(codes).r32)
    ensures c in codes <==> Covers(TableOf(codes).r16, c) || Covers(TableOf(codes).r32, c)
    ensures Covers(TableOf(codes).r16, c) ==> c <= 0xFFFF
    ensures Covers(TableOf(codes).r32, c) ==> c > 0xFFFF
  {
    HalvesExpand(codes);
    ExpandAllHolds(TableOf(codes).r16, c);
    ExpandAllHolds(TableOf(codes).r32, c);
  }

  lemma {:induction false} SameIncreasing(a: seq<int>, b: seq<int>)
    requires Increasing(a) && Increasing(b) && forall c :: c in a <==> c in b
    ensures a == b
  {
    if a != [] || b != [] {
      assert a != [] ==> a[0] in a;
      assert b != [] ==> b[0] in b;
      assert a[0] == b[0];
      forall c ensures c in a[1..] <==> c in b[1..] {
        assert c in a <==> c == a[0] || c in a[1..];
        assert c in b <==> c == b[0] || c in b[1..];
      }
      SameIncreasing(a[1..], b[1..]);
      assert a == [a[0]] + a[1..] && b == [b[0]] + b[1..];
    }
  }

  /** Two lists get the same runs exactly when they are the same list, so sharing a table never confuses two sets. */
  lemma {:induction false} SameRunsExactly(a: seq<int>, b: seq<int>)
    requires CodeList(a) && CodeList(b)
    ensures TableOf(a).r16 == TableOf(b).r16 && TableOf(a).r32 == TableOf(b).r32 <==> a == b
  {
    if TableOf(a).r16 == TableOf(b).r16 && TableOf(a).r32 == TableOf(b).r32 {
      forall c ensures c in a <==> c in b {
        TableExactly(a, c);
        TableExactly(b, c);
      }
      SameIncreasing(a, b);
    }
  }

  /** A run of one has not chosen a stride, and is written with a stride of one. */
  lemma {:induction false} GreedyOnes(codes: seq<int>, i: nat)
    requires Increasing(codes) && i < |Greedy(codes)|
    ensures Greedy(codes)[i].lo <= Greedy(codes)[i].hi
    ensures Greedy(codes)[i].lo == Greedy(codes)[i].hi ==> Greedy(codes)[i].stride == 1
    ensures codes != [] && Greedy(codes)[|Greedy(codes)| - 1].hi == codes[|codes| - 1]
  {
    var init := codes[..|codes| - 1];
    var rs := Greedy(init);
    if rs != [] {
      GreedyOnes(init, |rs| - 1);
      if i < |rs| { GreedyOnes(init, i); }
      assert init[|init| - 1] < codes[|codes| - 1];
    }
  }

  /** A run of a table stays within the code points it was packed from, so its fields fit a word. */
  lemma {:induction false} TableFits(codes: seq<int>)
    requires CodeList(codes)
    ensures forall i :: 0 <= i < |TableOf(codes).r16| ==> Fits(TableOf(codes).r16[i])
    ensures forall i :: 0 <= i < |TableOf(codes).r32| ==> Fits(TableOf(codes).r32[i])
  {
    HalvesExpand(codes);
    HalvesIncrease(codes);
    forall i | 0 <= i < |TableOf(codes).r16| ensures Fits(TableOf(codes).r16[i]) {
      RunFits(codes, TableOf(codes).r16, i);
      GreedyOnes(Below(codes), i);
    }
    forall i | 0 <= i < |TableOf(codes).r32| ensures Fits(TableOf(codes).r32[i]) {
      RunFits(codes, TableOf(codes).r32, i);
      GreedyOnes(Above(codes), i);
    }
  }

  /** Twenty one bits hold a code point, and twenty two a stride. */
  predicate Fits(r: Run) { 0 <= r.lo <= r.hi <= 0x10FFFF && 1 <= r.stride <= 0x10FFFF }

  lemma {:induction false} RunFits(codes: seq<int>, rs: seq<Run>, i: nat)
    requires CodeList(codes) && AllProper(rs) && forall c :: c in ExpandAll(rs) ==> c in codes
    requires i < |rs|
    ensures rs[i].hi <= 0x10FFFF && (rs[i].lo < rs[i].hi || rs[i].stride <= 0x10FFFF ==> Fits(rs[i]))
  {
    hide Proper, Expand, ExpandAll;
    var r := rs[i];
    EndIsThere(rs, i);
    StrideSmall(r);
  }

  /** A run with more than one code point strides no further than it reaches. */
  lemma {:induction false} StrideSmall(r: Run)
    requires Proper(r)
    ensures r.stride >= 1 && (r.lo < r.hi ==> r.stride <= r.hi - r.lo)
  {
    if r.lo < r.hi {
      Whole(r.hi - r.lo, r.stride);
      MulAtLeast(r.stride, (r.hi - r.lo) / r.stride);
    }
  }
}
