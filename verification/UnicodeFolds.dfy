/**
 What the orbits are for: `SimpleFold` as a permutation whose cycles are the
 folding classes, and `fold_exceptions`, which walks them.
 */
module UnicodeFolds {
  import opened UnicodeRuns
  import opened UnicodeOrbits

  // --- walking round a sequence ----------------------------------------------------------

  /** `k` steps round `s` from `x`. */
  function Walk(s: seq<nat>, x: nat, k: nat): (y: nat)
    requires x in s
    ensures y in s
  {
    if k == 0 then x else Next(s, Walk(s, x, k - 1))
  }

  /** The index `k` steps on from `i`, for at most once round. */
  function Around(n: nat, i: nat, k: nat): nat
    requires i < n && k <= n
  {
    if i + k < n then i + k else i + k - n
  }

  lemma {:induction false} WalkIndex(s: seq<nat>, i: nat, k: nat)
    requires Increasing(s) && i < |s| && k <= |s|
    ensures Walk(s, s[i], k) == s[Around(|s|, i, k)]
  {
    hide Place;
    if k > 0 {
      WalkIndex(s, i, k - 1);
      NextIndex(s, Around(|s|, i, k - 1));
    }
  }

  lemma {:induction false} NextIndex(s: seq<nat>, j: nat)
    requires Increasing(s) && j < |s|
    ensures Next(s, s[j]) == s[if j + 1 == |s| then 0 else j + 1]
  {
    PlaceOf(s, j);
  }

  /** Once round and no sooner. */
  lemma {:induction false} WalkReturns(s: seq<nat>, x: nat, k: nat)
    requires Increasing(s) && x in s && 0 < k <= |s|
    ensures Walk(s, x, k) == x <==> k == |s|
  {
    var i := Place(s, x);
    WalkIndex(s, i, k);
    var j := Around(|s|, i, k);
    if j < i { assert s[j] < s[i]; } else if i < j { assert s[i] < s[j]; }
  }

  /** And past every element on the way. */
  lemma {:induction false} WalkReaches(s: seq<nat>, x: nat, y: nat) returns (k: nat)
    requires Increasing(s) && x in s && y in s
    ensures k < |s| && Walk(s, x, k) == y
  {
    var i, j := Place(s, x), Place(s, y);
    k := if i <= j then j - i else j + |s| - i;
    WalkIndex(s, i, k);
  }

  lemma {:induction false} NextInjective(s: seq<nat>, x: nat, y: nat)
    requires Increasing(s) && x in s && y in s && Next(s, x) == Next(s, y)
    ensures x == y
  {
    var i, j := Place(s, x), Place(s, y);
    assert i + 1 < |s| && j + 1 < |s| ==> !(i < j) && !(j < i);
    assert i + 1 < |s| ==> s[0] < s[i + 1];
    assert j + 1 < |s| ==> s[0] < s[j + 1];
  }

  // --- the cycles of SimpleFold --------------------------------------------------------------

  /** A database on which `SimpleFold` gives the next of the class everywhere. */
  ghost predicate Folding(chars: Chars, orbit: seq<nat>) {
    Built(chars, orbit) && forall c :: 0 <= c < |chars| ==> FoldsOn(chars, orbit, c)
  }

  function Class(chars: Chars, c: nat): (s: seq<nat>)
    requires c < |chars|
    ensures c in s
  {
    ClassOf(chars, Target(chars, c))
  }

  /** `SimpleFold`, `k` times. */
  function FoldWalk(chars: Chars, orbit: seq<nat>, c: nat, k: nat): nat
    requires |orbit| == |chars|
  {
    if k == 0 then c
    else
      var d := FoldWalk(chars, orbit, c, k - 1);
      if d < |chars| then SimpleFold(chars, orbit, d) else d
  }

  lemma {:induction false} FoldStep(chars: Chars, orbit: seq<nat>, c: nat, d: nat)
    requires Folding(chars, orbit) && c < |chars| && d in Class(chars, c)
    ensures d < |chars| && SimpleFold(chars, orbit, d) == Next(Class(chars, c), d)
  {
    assert FoldsOn(chars, orbit, d);
  }

  predicate FoldsAlong(chars: Chars, orbit: seq<nat>, s: seq<nat>, d: nat)
    requires d in s && |orbit| == |chars|
  {
    d < |chars| && SimpleFold(chars, orbit, d) == Next(s, d)
  }

  lemma {:induction false} FoldWalkOn(chars: Chars, orbit: seq<nat>, s: seq<nat>, c: nat, k: nat)
    requires |orbit| == |chars| && c in s
    requires forall d {:trigger FoldsAlong(chars, orbit, s, d)} :: d in s ==> FoldsAlong(chars, orbit, s, d)
    ensures FoldWalk(chars, orbit, c, k) == Walk(s, c, k)
  {
    if k > 0 {
      FoldWalkOn(chars, orbit, s, c, k - 1);
      assert FoldsAlong(chars, orbit, s, Walk(s, c, k - 1));
    }
  }

  lemma {:induction false} FoldWalkIsWalk(chars: Chars, orbit: seq<nat>, c: nat, k: nat)
    requires Folding(chars, orbit) && c < |chars|
    ensures FoldWalk(chars, orbit, c, k) == Walk(Class(chars, c), c, k)
  {
    var s := Class(chars, c);
    forall d | d in s ensures FoldsAlong(chars, orbit, s, d) { FoldStep(chars, orbit, c, d); }
    FoldWalkOn(chars, orbit, s, c, k);
  }

  /** The cycle through a code point is its class: all of it, nothing else, and once round is the class's size. */
  lemma {:induction false} FoldCycle(chars: Chars, orbit: seq<nat>, c: nat, d: nat)
    requires Folding(chars, orbit) && c < |chars| && d < |chars|
    ensures (exists k :: 0 <= k < |Class(chars, c)| && FoldWalk(chars, orbit, c, k) == d)
      <==> Target(chars, c) == Target(chars, d)
    ensures FoldWalk(chars, orbit, c, |Class(chars, c)|) == c
    ensures forall k :: 0 < k < |Class(chars, c)| ==> FoldWalk(chars, orbit, c, k) != c
  {
    var s := Class(chars, c);
    ClassIncreasing(chars, Target(chars, c), |chars|);
    if Target(chars, c) == Target(chars, d) {
      var k := WalkReaches(s, c, d);
      FoldWalkIsWalk(chars, orbit, c, k);
    }
    if k :| 0 <= k < |s| && FoldWalk(chars, orbit, c, k) == d { FoldWalkIsWalk(chars, orbit, c, k); }
    FoldWalkIsWalk(chars, orbit, c, |s|);
    WalkReturns(s, c, |s|);
    forall k | 0 < k < |s| ensures FoldWalk(chars, orbit, c, k) != c {
      FoldWalkIsWalk(chars, orbit, c, k);
      WalkReturns(s, c, k);
    }
  }

  /** `SimpleFold` is a permutation of the code points. */
  lemma {:induction false} FoldPermutes(chars: Chars, orbit: seq<nat>, c: nat, d: nat)
    requires Folding(chars, orbit) && c < |chars| && d < |chars|
    ensures SimpleFold(chars, orbit, c) < |chars|
    ensures SimpleFold(chars, orbit, c) == SimpleFold(chars, orbit, d) ==> c == d
    ensures exists e :: 0 <= e < |chars| && SimpleFold(chars, orbit, e) == c
  {
    var s := Class(chars, c);
    ClassIncreasing(chars, Target(chars, c), |chars|);
    assert FoldsOn(chars, orbit, c) && FoldsOn(chars, orbit, d);
    if SimpleFold(chars, orbit, c) == SimpleFold(chars, orbit, d) {
      assert Next(Class(chars, d), d) in Class(chars, d);
      NextInjective(s, c, d);
    }
    var e := Walk(s, c, |s| - 1);
    WalkReturns(s, c, |s|);
    assert FoldsOn(chars, orbit, e);
    assert SimpleFold(chars, orbit, e) == c;
  }

  // --- fold_exceptions ---------------------------------------------------------------------------

  /** The mappings of a dropped pair stay in the pair. */
  ghost predicate Contained(chars: Chars) {
    forall t :: 0 <= t < |chars| && Dropped(chars, Grouped(chars, t)) ==>
      PairContained(chars, Grouped(chars, t)[0], Grouped(chars, t)[1])
  }

  predicate PairContained(chars: Chars, a: nat, b: nat)
    requires a < |chars| && b < |chars|
  {
    && chars[a].upper in {0, a, b} && chars[a].lower in {0, a, b}
    && chars[b].upper in {0, a, b} && chars[b].lower in {0, a, b}
  }

  /** Which is more than `SimpleFold` asks for. */
  lemma {:induction false} ContainedFolds(chars: Chars, orbit: seq<nat>)
    requires Built(chars, orbit) && Contained(chars)
    ensures Folding(chars, orbit)
  {
    FoldExactly(chars, orbit);
  }

  /** What a code point with no orbit contributes. */
  function Beside(chars: Chars, c: nat): set<nat>
    requires c < |chars|
  {
    (if chars[c].upper != 0 then {chars[c].upper} else {})
    + (if chars[c].lower != 0 then {chars[c].lower} else {}) + {c}
  }

  function Elements(s: seq<nat>): set<nat> { set x | x in s }

  /** Without an orbit, the case mappings are the class. */
  lemma {:induction false} BesideIsClass(chars: Chars, orbit: seq<nat>, c: nat)
    requires Built(chars, orbit) && Contained(chars) && c < |chars| && orbit[c] == 0
    ensures Beside(chars, c) == Elements(Class(chars, c))
  {
    var t := Target(chars, c);
    if Grouped(chars, t) == [] {
      NoGroup(chars, c);
    } else {
      GroupIsClass(chars, t, 0);
      assert chars[0].fold == 0 && Target(chars, 0) == 0;
      assert Next(ClassOf(chars, t), c) != 0;
      PairBeside(chars, c);
    }
  }

  /** The class of a dropped pair is the pair. */
  lemma {:induction false} PairElements(chars: Chars, t: nat, c: nat)
    requires Sane(chars) && t < |chars| && Dropped(chars, Grouped(chars, t)) && c in Grouped(chars, t)
    ensures var g := Grouped(chars, t);
      g[0] != 0 && g[1] != 0 && c < |chars| && Target(chars, c) == t && Elements(Class(chars, c)) == {g[0], g[1]}
  {
    var g := Grouped(chars, t);
    GroupIsClass(chars, t, c);
    PairClass(chars, t);
    forall x: nat ensures x in Class(chars, c) <==> x == g[0] || x == g[1] {
      GroupIsClass(chars, t, x);
      assert x in g <==> x == g[0] || x == g[1];
    }
    GroupIsClass(chars, t, 0);
    assert chars[0].fold == 0 && Target(chars, 0) == 0;
  }

  lemma {:induction false} PairBeside(chars: Chars, c: nat)
    requires Sane(chars) && Contained(chars) && c < |chars| && Target(chars, c) < |chars|
    requires Dropped(chars, Grouped(chars, Target(chars, c)))
    ensures Beside(chars, c) == Elements(Class(chars, c))
  {
    var t := Target(chars, c);
    PairMembers(chars, c);
    PairElements(chars, t, c);
    assert PairContained(chars, Grouped(chars, t)[0], Grouped(chars, t)[1]);
  }

  /** And a dropped pair whose mappings stand in for both its classes keeps them in the pair. */
  lemma {:induction false} BesidePair(chars: Chars, t: nat)
    requires Sane(chars) && t < |chars| && Dropped(chars, Grouped(chars, t))
    requires forall c :: c in Grouped(chars, t) && c < |chars| ==> Beside(chars, c) == Elements(Class(chars, c))
    ensures PairContained(chars, Grouped(chars, t)[0], Grouped(chars, t)[1])
  {
    var a, b := Grouped(chars, t)[0], Grouped(chars, t)[1];
    PairElements(chars, t, a);
    PairElements(chars, t, b);
    assert a in Grouped(chars, t) && b in Grouped(chars, t);
    assert chars[a].upper != 0 ==> chars[a].upper in Beside(chars, a);
    assert chars[a].lower != 0 ==> chars[a].lower in Beside(chars, a);
    assert chars[b].upper != 0 ==> chars[b].upper in Beside(chars, b);
    assert chars[b].lower != 0 ==> chars[b].lower in Beside(chars, b);
  }

  /** What `k` steps round `s` from `x` have passed. */
  function Passed(s: seq<nat>, x: nat, k: nat): set<nat>
    requires x in s
  {
    if k == 0 then {} else Passed(s, x, k - 1) + {Walk(s, x, k - 1)}
  }

  lemma {:induction false} PassedHolds(s: seq<nat>, x: nat, j: nat, k: nat)
    requires x in s && j < k
    ensures Walk(s, x, j) in Passed(s, x, k)
  {
    if j < k - 1 { PassedHolds(s, x, j, k - 1); }
  }

  lemma {:induction false} PassedInside(s: seq<nat>, x: nat, k: nat)
    requires x in s
    ensures Passed(s, x, k) <= Elements(s)
  {
    if k > 0 { PassedInside(s, x, k - 1); }
  }

  lemma {:induction false} OnceRound(s: seq<nat>, x: nat)
    requires Increasing(s) && x in s
    ensures Passed(s, x, |s|) == Elements(s)
  {
    PassedInside(s, x, |s|);
    forall y | y in s ensures y in Passed(s, x, |s|) {
      var j := WalkReaches(s, x, y);
      PassedHolds(s, x, j, |s|);
    }
  }

  predicate PointsOn(orbit: seq<nat>, s: seq<nat>, x: nat)
    requires x in s
  {
    x < |orbit| && orbit[x] == Next(s, x)
  }

  /** The inner loop: once round the orbit, adding what is passed. */
  method AddOrbit(orbit: seq<nat>, code: nat, reachable: set<nat>, ghost s: seq<nat>) returns (more: set<nat>)
    requires Increasing(s) && code in s
    requires forall x {:trigger PointsOn(orbit, s, x)} :: x in s ==> PointsOn(orbit, s, x)
    ensures more == reachable + Elements(s)
  {
    more := reachable;
    var walk := code;
    ghost var k := 0;
    while true
      invariant k < |s| && walk == Walk(s, code, k)
      invariant more == reachable + Passed(s, code, k)
      decreases |s| - k
    {
      assert PointsOn(orbit, s, walk);
      more := more + {walk};
      walk := orbit[walk];
      k := k + 1;
      WalkReturns(s, code, k);
      if walk == code { break; }
    }
    OnceRound(s, code);
  }

  /** If one member of a class has an orbit, all have, and it is the next of the class. */
  lemma {:induction false} OrbitNext(chars: Chars, orbit: seq<nat>, code: nat, walk: nat)
    requires Built(chars, orbit) && code < |chars| && orbit[code] != 0 && walk in Class(chars, code)
    ensures orbit[walk] == Next(Class(chars, code), walk)
  {
  }

  /** The numbers below `n` that are in a set, ascending: Python's `sorted`. */
  function Listed(s: set<nat>, n: nat): (r: seq<nat>)
    ensures forall x: nat :: x in r <==> x < n && x in s
    ensures Increasing(r)
  {
    if n == 0 then [] else
      var init := Listed(s, n - 1);
      assert forall i :: 0 <= i < |init| ==> init[i] in init;
      init + (if n - 1 in s then [n - 1] else [])
  }

  /** Something in the list folds together with `d`. */
  ghost predicate Touches(chars: Chars, list: seq<nat>, d: nat)
    requires d < |chars|
  {
    exists j :: 0 <= j < |list| && list[j] < |chars| && Target(chars, list[j]) == Target(chars, d)
  }

  lemma {:induction false} TouchesNext(chars: Chars, list: seq<nat>, i: nat, d: nat)
    requires i < |list| && list[i] < |chars| && d < |chars|
    ensures Touches(chars, list[..i + 1], d) <==> Touches(chars, list[..i], d) || d in Class(chars, list[i])
  {
    var longer, shorter := list[..i + 1], list[..i];
    if Touches(chars, longer, d) {
      var j :| 0 <= j < |longer| && longer[j] < |chars| && Target(chars, longer[j]) == Target(chars, d);
      if j < i { assert shorter[j] == longer[j]; }
    }
    if Touches(chars, shorter, d) {
      var j :| 0 <= j < |shorter| && shorter[j] < |chars| && Target(chars, shorter[j]) == Target(chars, d);
      assert longer[j] == shorter[j];
    }
    assert longer[i] == list[i];
  }

  /** What the loop adds for one code point: its mappings, or what its orbit passes. */
  ghost function Reached(chars: Chars, orbit: seq<nat>, c: nat): set<nat>
    requires c < |chars| == |orbit|
  {
    if orbit[c] == 0 then Beside(chars, c) else Elements(Class(chars, c))
  }

  /** One turn. */
  method AddClass(chars: Chars, orbit: seq<nat>, code: nat, reachable: set<nat>) returns (more: set<nat>)
    requires Built(chars, orbit) && code < |chars|
    ensures more == reachable + Reached(chars, orbit, code)
  {
    if orbit[code] == 0 {
      more := reachable + Beside(chars, code);
    } else {
      ghost var s := Class(chars, code);
      ClassIncreasing(chars, Target(chars, code), |chars|);
      forall x | x in s ensures PointsOn(orbit, s, x) { OrbitNext(chars, orbit, code, x); }
      more := AddOrbit(orbit, code, reachable, s);
    }
  }

  /** The mappings are code points. */
  ghost predicate Mapped(chars: Chars) {
    forall c :: 0 <= c < |chars| ==> chars[c].upper < |chars| && chars[c].lower < |chars|
  }

  ghost predicate InRange(chars: Chars, list: seq<nat>) {
    forall i :: 0 <= i < |list| ==> list[i] < |chars|
  }

  /** Everything the loop adds for a list. */
  ghost function ReachedFrom(chars: Chars, orbit: seq<nat>, list: seq<nat>): set<nat>
    requires |chars| == |orbit| && InRange(chars, list)
  {
    if list == [] then {}
    else ReachedFrom(chars, orbit, list[..|list| - 1]) + Reached(chars, orbit, list[|list| - 1])
  }

  lemma {:induction false} ReachedInside(chars: Chars, orbit: seq<nat>, list: seq<nat>)
    requires |chars| == |orbit| && InRange(chars, list) && Mapped(chars)
    ensures forall x :: x in ReachedFrom(chars, orbit, list) ==> x < |chars|
  {
    if list != [] { ReachedInside(chars, orbit, list[..|list| - 1]); }
  }

  /** `fold_exceptions`: what the loop reaches from a class and is not in it, in order. */
  method FoldExceptions(chars: Chars, orbit: seq<nat>, class_: seq<nat>) returns (out: seq<nat>)
    requires Built(chars, orbit) && Mapped(chars) && InRange(chars, class_)
    ensures Increasing(out)
    ensures forall d: nat :: d in out <==> d in ReachedFrom(chars, orbit, class_) && d !in class_
    ensures Contained(chars) ==> forall d: nat :: d in out <==> d < |chars| && d !in class_ && Touches(chars, class_, d)
  {
    var reachable: set<nat> := {};
    for i := 0 to |class_|
      invariant reachable == ReachedFrom(chars, orbit, class_[..i])
    {
      assert class_[..i + 1][..i] == class_[..i];
      reachable := AddClass(chars, orbit, class_[i], reachable);
    }
    assert class_[..|class_|] == class_;
    ReachedInside(chars, orbit, class_);
    out := Listed(reachable - Elements(class_), |chars|);
    if Contained(chars) { ReachedIsTouched(chars, orbit, class_); }
  }

  /** The loop reaches from a list exactly what folds together with something in it. */
  ghost predicate Complete(chars: Chars, orbit: seq<nat>, list: seq<nat>)
    requires |chars| == |orbit| && InRange(chars, list)
  {
    forall d :: 0 <= d < |chars| ==> (d in ReachedFrom(chars, orbit, list) <==> Touches(chars, list, d))
  }

  lemma {:induction false} ReachedIsTouched(chars: Chars, orbit: seq<nat>, list: seq<nat>)
    requires Built(chars, orbit) && Contained(chars) && InRange(chars, list)
    ensures Complete(chars, orbit, list)
  {
    hide Contained, Class, Reached;
    if list != [] {
      var i := |list| - 1;
      ReachedIsTouched(chars, orbit, list[..i]);
      ReachedIsClass(chars, orbit, list[i]);
      assert list[..i + 1] == list;
      forall d | 0 <= d < |chars| ensures d in ReachedFrom(chars, orbit, list) <==> Touches(chars, list, d) {
        TouchesNext(chars, list, i, d);
      }
    }
  }

  lemma {:induction false} ReachedIsClass(chars: Chars, orbit: seq<nat>, c: nat)
    requires Built(chars, orbit) && Contained(chars) && c < |chars|
    ensures Reached(chars, orbit, c) == Elements(Class(chars, c))
  {
    hide Contained, Beside, Class, Elements;
    if orbit[c] == 0 { BesideIsClass(chars, orbit, c); }
  }

  lemma {:induction false} ReachedOne(chars: Chars, orbit: seq<nat>, c: nat)
    requires c < |chars| == |orbit|
    ensures ReachedFrom(chars, orbit, [c]) == Reached(chars, orbit, c)
  {
    hide Reached;
    assert [c][..0] == [];
    assert ReachedFrom(chars, orbit, []) == {};
  }

  /** The list of one code point reaches its class and nothing else. */
  lemma {:induction false} OneReaches(chars: Chars, orbit: seq<nat>, c: nat)
    requires Built(chars, orbit) && Mapped(chars) && c < |chars| && Complete(chars, orbit, [c])
    ensures Reached(chars, orbit, c) == Elements(Class(chars, c))
  {
    hide Reached, Beside, ClassOf, ReachedFrom;
    ReachedOne(chars, orbit, c);
    ReachedInside(chars, orbit, [c]);
    forall d: nat ensures d in Reached(chars, orbit, c) <==> d in Class(chars, c) {
      if d < |chars| {
        TouchesNext(chars, [c], 0, d);
        assert [c][..1] == [c];
      }
    }
  }

  /** It does so for every list exactly when the mappings of every dropped pair stay in the pair. */
  lemma {:induction false} ExceptionsExactly(chars: Chars, orbit: seq<nat>)
    requires Built(chars, orbit) && Mapped(chars)
    ensures (forall list :: InRange(chars, list) ==> Complete(chars, orbit, list)) <==> Contained(chars)
  {
    hide Complete, PairContained, Elements, Beside;
    if Contained(chars) {
      forall list | InRange(chars, list) ensures Complete(chars, orbit, list) { ReachedIsTouched(chars, orbit, list); }
    }
    if forall list :: InRange(chars, list) ==> Complete(chars, orbit, list) {
      forall t | 0 <= t < |chars| && Dropped(chars, Grouped(chars, t))
        ensures PairContained(chars, Grouped(chars, t)[0], Grouped(chars, t)[1])
      {
        forall c | c in Grouped(chars, t) && c < |chars| ensures Beside(chars, c) == Elements(Class(chars, c)) {
          assert InRange(chars, [c]);
          OneReaches(chars, orbit, c);
          PairElements(chars, t, c);
        }
        BesidePair(chars, t);
      }
    }
  }
}
