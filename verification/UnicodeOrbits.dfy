/**
 The simple case folding orbits: the four passes of `_build_orbits`, and what
 `SimpleFold` answers from what they leave behind.
 */
module UnicodeOrbits {
  import opened UnicodeRuns

  /** One code point's case mappings and fold; 0 is none. */
  datatype Char = Char(upper: nat, lower: nat, title: nat, fold: nat, known: bool)

  type Chars = seq<Char>

  // --- classes -----------------------------------------------------------------------

  /** What a code point folds to, itself when it folds to nothing. */
  function Target(chars: Chars, c: nat): nat
    requires c < |chars|
  {
    if chars[c].fold != 0 then chars[c].fold else c
  }

  /** The code points below `n` with a given target, ascending. */
  function ClassBelow(chars: Chars, t: nat, n: nat): (r: seq<nat>)
    requires n <= |chars|
    ensures forall c: nat :: c in r <==> c < n && Target(chars, c) == t
  {
    if n == 0 then []
    else ClassBelow(chars, t, n - 1) + (if Target(chars, n - 1) == t then [n - 1] else [])
  }

  /** Everything that folds together at `t`. */
  function ClassOf(chars: Chars, t: nat): (r: seq<nat>)
    ensures forall c: nat :: c in r <==> c < |chars| && Target(chars, c) == t
  {
    ClassBelow(chars, t, |chars|)
  }

  lemma {:induction false} ClassIncreasing(chars: Chars, t: nat, n: nat)
    requires n <= |chars|
    ensures Increasing(ClassBelow(chars, t, n))
  {
    if n > 0 {
      ClassIncreasing(chars, t, n - 1);
      var init := ClassBelow(chars, t, n - 1);
      forall i | 0 <= i < |init| ensures init[i] < n - 1 { assert init[i] in init; }
    }
  }

  /** The place of an element, and the element after it, the first coming after the last. */
  function Place(s: seq<nat>, x: nat): (i: nat)
    requires x in s
    ensures i < |s| && s[i] == x && forall j :: 0 <= j < i ==> s[j] != x
  {
    if s[0] == x then 0 else 1 + Place(s[1..], x)
  }

  function Next(s: seq<nat>, x: nat): (y: nat)
    requires x in s
    ensures y in s
  {
    var i := Place(s, x);
    if i + 1 == |s| then s[0] else s[i + 1]
  }

  lemma {:induction false} PlaceOf(s: seq<nat>, i: nat)
    requires Increasing(s) && i < |s|
    ensures Place(s, s[i]) == i
  {
    var j := Place(s, s[i]);
    assert !(j < i) && !(i < j);
  }

  // --- the database ------------------------------------------------------------------

  /** Fold targets are code points and do not fold again, and 0 stands for nothing only. */
  ghost predicate Sane(chars: Chars) {
    && |chars| > 0
    && chars[0].fold == 0 && chars[0].upper == 0 && chars[0].lower == 0
    && forall c :: 0 <= c < |chars| && chars[c].fold != 0 ==> chars[c].fold < |chars| && chars[chars[c].fold].fold == 0
  }

  predicate Cased(chars: Chars, c: nat)
    requires c < |chars|
  {
    (chars[c].upper != 0 && chars[c].upper != c) || (chars[c].lower != 0 && chars[c].lower != c)
  }

  // --- the groups, pass by pass --------------------------------------------------------

  /** The code points below `n` that fold to `t`, ascending. */
  function Folders(chars: Chars, t: nat, n: nat): (r: seq<nat>)
    requires n <= |chars|
    ensures forall c: nat :: c in r <==> c < n && chars[c].fold == t
  {
    if n == 0 then []
    else Folders(chars, t, n - 1) + (if chars[n - 1].fold == t then [n - 1] else [])
  }

  /** After pass one has seen `n` code points. */
  function Gathered(chars: Chars, t: nat, n: nat): seq<nat>
    requires n <= |chars|
  {
    if t == 0 || Folders(chars, t, n) == [] then [] else [t] + Folders(chars, t, n)
  }

  /** After pass two. */
  function Grouped(chars: Chars, t: nat): seq<nat>
    requires t < |chars|
  {
    var g := Gathered(chars, t, |chars|);
    if g == [] && chars[t].fold == 0 && Cased(chars, t) then [t] else g
  }

  /** A pair that is each other's case, one way round. */
  predicate CasePair(chars: Chars, a: nat, b: nat)
    requires a < |chars| && b < |chars|
  {
    chars[a].upper == b && chars[b].lower == a
  }

  predicate Dropped(chars: Chars, g: seq<nat>) {
    |g| == 2 && g[0] < |chars| && g[1] < |chars| && (CasePair(chars, g[0], g[1]) || CasePair(chars, g[1], g[0]))
  }

  /** After pass three. */
  function Kept(chars: Chars, t: nat): seq<nat>
    requires t < |chars|
  {
    if Dropped(chars, Grouped(chars, t)) then [] else Grouped(chars, t)
  }

  /** What pass four leaves at a code point. */
  function OrbitOf(chars: Chars, c: nat): nat
    requires c < |chars| && Target(chars, c) < |chars|
  {
    if Kept(chars, Target(chars, c)) == [] then 0 else Next(ClassOf(chars, Target(chars, c)), c)
  }

  lemma {:induction false} TargetInside(chars: Chars, c: nat)
    requires Sane(chars) && c < |chars|
    ensures Target(chars, c) < |chars| && Target(chars, Target(chars, c)) == Target(chars, c)
    ensures chars[Target(chars, c)].fold == 0
  {
  }

  /** A group that exists is its class. */
  lemma {:induction false} GroupIsClass(chars: Chars, t: nat, c: nat)
    requires Sane(chars) && t < |chars| && Grouped(chars, t) != []
    ensures c in Grouped(chars, t) <==> c in ClassOf(chars, t)
    ensures t in ClassOf(chars, t) && t > 0
  {
    var f := Folders(chars, t, |chars|);
    if Gathered(chars, t, |chars|) != [] {
      assert f[0] in f;
      assert chars[f[0]].fold == t;
    }
    assert chars[t].fold == 0;
    assert c in Grouped(chars, t) <==> c == t || (t != 0 && c in f);
    if c in f { assert chars[c].fold == t; }
  }

  /** Where there is no group there is nothing but the code point itself, and no case to mislead anyone. */
  lemma {:induction false} NoGroup(chars: Chars, c: nat)
    requires Sane(chars) && c < |chars| && Grouped(chars, Target(chars, c)) == []
    ensures Target(chars, c) == c && ClassOf(chars, c) == [c] && !Cased(chars, c)
  {
    var t := Target(chars, c);
    assert chars[c].fold == 0 || c in Folders(chars, t, |chars|);
    forall d: nat | d in ClassOf(chars, c) ensures d == c {
      assert d == c || d in Folders(chars, c, |chars|);
    }
    ClassIncreasing(chars, c, |chars|);
    OnlyOne(ClassOf(chars, c), c);
  }

  lemma {:induction false} OnlyOne(s: seq<nat>, c: nat)
    requires Increasing(s) && forall d: nat :: d in s <==> d == c
    ensures s == [c]
  {
    forall d ensures d in s <==> d in [c] {}
    SameIncreasing(s, [c]);
  }

  // --- sorting -----------------------------------------------------------------------------

  function InsertCode(x: nat, s: seq<nat>): (r: seq<nat>)
    ensures forall y :: y in r <==> y == x || y in s
  {
    if s == [] then [x] else if x <= s[0] then [x] + s else [s[0]] + InsertCode(x, s[1..])
  }

  function SortCodes(s: seq<nat>): (r: seq<nat>)
    ensures forall y :: y in r <==> y in s
  {
    if s == [] then [] else InsertCode(s[0], SortCodes(s[1..]))
  }

  lemma {:induction false} InsertIncreasing(x: nat, s: seq<nat>)
    requires Increasing(s) && x !in s
    ensures Increasing(InsertCode(x, s))
  {
    if s != [] && x > s[0] {
      InsertIncreasing(x, s[1..]);
      var r := InsertCode(x, s[1..]);
      forall i | 0 <= i < |r| ensures s[0] < r[i] { assert r[i] in r; assert r[i] == x || r[i] in s[1..]; }
    } else if s != [] {
      assert x != s[0];
    }
  }

  lemma {:induction false} SortIncreasing(s: seq<nat>)
    requires forall i, j :: 0 <= i < j < |s| ==> s[i] != s[j]
    ensures Increasing(SortCodes(s))
  {
    if s != [] {
      SortIncreasing(s[1..]);
      assert s[0] !in s[1..];
      InsertIncreasing(s[0], SortCodes(s[1..]));
    }
  }

  lemma {:induction false} FoldersIncreasing(chars: Chars, t: nat, n: nat)
    requires n <= |chars|
    ensures Increasing(Folders(chars, t, n))
  {
    if n > 0 {
      FoldersIncreasing(chars, t, n - 1);
      var init := Folders(chars, t, n - 1);
      forall i | 0 <= i < |init| ensures init[i] < n - 1 { assert init[i] in init; }
    }
  }

  /** Sorting a group gives its class. */
  lemma {:induction false} SortedGroup(chars: Chars, t: nat)
    requires Sane(chars) && t < |chars| && Grouped(chars, t) != []
    ensures SortCodes(Grouped(chars, t)) == ClassOf(chars, t)
  {
    var g := Grouped(chars, t);
    FoldersIncreasing(chars, t, |chars|);
    GroupIsClass(chars, t, t);
    forall i, j | 0 <= i < j < |g| ensures g[i] != g[j] {
      if i == 0 { assert g[j] in Folders(chars, t, |chars|); }
    }
    SortIncreasing(g);
    ClassIncreasing(chars, t, |chars|);
    forall c ensures c in SortCodes(g) <==> c in ClassOf(chars, t) { if c >= 0 { GroupIsClass(chars, t, c); } }
    SameIncreasing(SortCodes(g), ClassOf(chars, t));
  }

  /** The orbits a database is left with. */
  ghost predicate Built(chars: Chars, orbit: seq<nat>) {
    && Sane(chars) && |orbit| == |chars|
    && forall c :: 0 <= c < |chars| ==> Target(chars, c) < |chars| && orbit[c] == OrbitOf(chars, c)
  }

  // --- the four passes -------------------------------------------------------------------------

  lemma {:induction false} GatherStep(chars: Chars, t: nat, code: nat)
    requires code < |chars|
    ensures Gathered(chars, t, code + 1)
      == if t == 0 || chars[code].fold != t then Gathered(chars, t, code)
         else (if Gathered(chars, t, code) == [] then [t] else Gathered(chars, t, code)) + [code]
  {
  }

  /** The array when pass one has seen `n` code points. */
  ghost function GatheredAll(chars: Chars, n: nat): (r: seq<seq<nat>>)
    requires n <= |chars|
    ensures |r| == |chars| && forall t :: 0 <= t < |r| ==> r[t] == Gathered(chars, t, n)
  {
    seq(|chars|, t requires 0 <= t => Gathered(chars, t, n))
  }

  lemma {:induction false} GatherNext(chars: Chars, code: nat)
    requires Sane(chars) && code < |chars|
    ensures var now, fold := GatheredAll(chars, code), chars[code].fold;
      fold < |chars| && GatheredAll(chars, code + 1)
        == if fold == 0 then now else now[fold := (if now[fold] == [] then [fold] else now[fold]) + [code]]
  {
    var now, fold := GatheredAll(chars, code), chars[code].fold;
    forall t | 0 <= t < |chars|
      ensures Gathered(chars, t, code + 1)
        == if t == 0 || fold != t then now[t] else (if now[t] == [] then [t] else now[t]) + [code]
    {
      GatherStep(chars, t, code);
    }
  }

  /** One: everything that folds to the same code point. */
  method Gather(chars: Chars, orbits: array<seq<nat>>)
    requires Sane(chars) && orbits.Length == |chars|
    requires forall t :: 0 <= t < orbits.Length ==> orbits[t] == []
    modifies orbits
    ensures orbits[..] == GatheredAll(chars, |chars|)
  {
    assert orbits[..] == GatheredAll(chars, 0);
    for code := 0 to |chars|
      invariant orbits[..] == GatheredAll(chars, code)
    {
      GatherNext(chars, code);
      ghost var now := orbits[..];
      var fold := chars[code].fold;
      if fold == 0 { continue; }
      if orbits[fold] == [] { orbits[fold] := [fold]; }
      orbits[fold] := orbits[fold] + [code];
      assert orbits[..] == now[fold := (if now[fold] == [] then [fold] else now[fold]) + [code]];
    }
  }

  /** What pass two reads decides what it ought to write. */
  lemma {:induction false} SingleStep(chars: Chars, code: nat)
    requires Sane(chars) && code < |chars|
    ensures chars[code].fold != 0 ==>
      Gathered(chars, chars[code].fold, |chars|) != [] && Grouped(chars, code) == Gathered(chars, code, |chars|)
    ensures chars[code].fold == 0 ==>
      Grouped(chars, code) ==
        if Gathered(chars, code, |chars|) == [] && Cased(chars, code) then [code] else Gathered(chars, code, |chars|)
  {
    assert chars[code].fold == 0 || code in Folders(chars, chars[code].fold, |chars|);
  }

  lemma {:induction false} GatheredStays(chars: Chars, t: nat)
    requires Sane(chars) && t < |chars| && Gathered(chars, t, |chars|) != []
    ensures Grouped(chars, t) == Gathered(chars, t, |chars|)
  {
  }

  /** The array when pass two has seen `n` code points. */
  ghost function GroupedTo(chars: Chars, n: nat): (r: seq<seq<nat>>)
    requires n <= |chars|
    ensures |r| == |chars|
    ensures forall t :: 0 <= t < |r| ==> r[t] == if t < n then Grouped(chars, t) else Gathered(chars, t, |chars|)
  {
    seq(|chars|, t requires 0 <= t < |chars| => if t < n then Grouped(chars, t) else Gathered(chars, t, |chars|))
  }

  lemma {:induction false} SinglesNext(chars: Chars, code: nat)
    requires Sane(chars) && code < |chars|
    ensures var now, fold := GroupedTo(chars, code), if chars[code].fold != 0 then chars[code].fold else code;
      fold < |chars| && GroupedTo(chars, code + 1)
        == if now[fold] != [] || !Cased(chars, code) then now else now[code := [code]]
  {
    var now, fold := GroupedTo(chars, code), if chars[code].fold != 0 then chars[code].fold else code;
    SingleStep(chars, code);
    if Gathered(chars, fold, |chars|) != [] { GatheredStays(chars, fold); }
    assert now[code] == Gathered(chars, code, |chars|);
    assert GroupedTo(chars, code + 1) == now[code := Grouped(chars, code)];
  }

  /** Two: a group for a code point that folds to nothing and has a case mapping. */
  method AddSingles(chars: Chars, orbits: array<seq<nat>>)
    requires Sane(chars) && orbits.Length == |chars| && orbits[..] == GatheredAll(chars, |chars|)
    modifies orbits
    ensures orbits[..] == GroupedTo(chars, |chars|)
  {
    assert orbits[..] == GroupedTo(chars, 0);
    for code := 0 to |chars|
      invariant orbits[..] == GroupedTo(chars, code)
    {
      SinglesNext(chars, code);
      ghost var now := orbits[..];
      var fold := if chars[code].fold != 0 then chars[code].fold else code;
      if orbits[fold] != [] { continue; }
      if Cased(chars, code) {
        orbits[code] := [code];
        assert orbits[..] == now[code := [code]];
      }
    }
  }

  /** Three: drop the pairs that the case mappings already answer for. */
  method DropPairs(chars: Chars, orbits: array<seq<nat>>)
    requires orbits.Length == |chars|
    requires forall t, x :: 0 <= t < orbits.Length && x in orbits[t] ==> x < |chars|
    modifies orbits
    ensures forall t :: 0 <= t < orbits.Length ==>
      orbits[t] == if Dropped(chars, old(orbits[t])) then [] else old(orbits[t])
  {
    for code := 0 to |chars|
      invariant forall t :: 0 <= t < code ==> orbits[t] == if Dropped(chars, old(orbits[t])) then [] else old(orbits[t])
      invariant forall t :: code <= t < orbits.Length ==> orbits[t] == old(orbits[t])
    {
      if |orbits[code]| != 2 { continue; }
      var a, b := orbits[code][0], orbits[code][1];
      assert a in old(orbits[code]) && b in old(orbits[code]);
      if chars[a].upper == b && chars[b].lower == a {
        orbits[code] := [];
      } else if chars[b].upper == a && chars[a].lower == b {
        orbits[code] := [];
      }
    }
  }

  /** One group of pass four: each points at the next, and the largest at the smallest. */
  method WriteCycle(orbit: array<nat>, ordered: seq<nat>)
    requires Increasing(ordered) && ordered != [] && forall i :: 0 <= i < |ordered| ==> ordered[i] < orbit.Length
    modifies orbit
    ensures forall i :: 0 <= i < |ordered| ==> orbit[ordered[i]] == Next(ordered, ordered[i])
    ensures forall c :: 0 <= c < orbit.Length && c !in ordered ==> orbit[c] == old(orbit[c])
  {
    var m := |ordered|;
    var previous := ordered[m - 1];
    for j := 0 to m
      invariant previous == if j == 0 then ordered[m - 1] else ordered[j - 1]
      invariant forall i :: 0 <= i < j - 1 ==> orbit[ordered[i]] == ordered[i + 1]
      invariant j > 0 ==> orbit[ordered[m - 1]] == ordered[0]
      invariant forall c :: 0 <= c < orbit.Length && c !in ordered ==> orbit[c] == old(orbit[c])
    {
      orbit[previous] := ordered[j];
      previous := ordered[j];
    }
    forall i | 0 <= i < m ensures orbit[ordered[i]] == Next(ordered, ordered[i]) { PlaceOf(ordered, i); }
  }

  /** Which class each code point is in, and what the groups sort to: all that pass four depends on. */
  ghost predicate Partition(groups: seq<seq<nat>>, classes: seq<seq<nat>>, index: seq<nat>) {
    && |classes| == |groups|
    && forall n :: 0 <= n < |groups| && groups[n] != [] ==> IsClass(groups[n], classes[n], index, n)
  }

  ghost predicate IsClass(group: seq<nat>, class_: seq<nat>, index: seq<nat>, n: nat) {
    && SortCodes(group) == class_ && class_ != [] && Increasing(class_)
    && forall c: nat :: c in class_ <==> c < |index| && index[c] == n
  }

  /** Four: each group as a cycle. */
  method WriteCycles(orbits: array<seq<nat>>, orbit: array<nat>, ghost classes: seq<seq<nat>>, ghost index: seq<nat>)
    requires Partition(orbits[..], classes, index) && orbit.Length == |index|
    requires forall c :: 0 <= c < orbit.Length ==> orbit[c] == 0
    modifies orbit
    ensures forall c :: 0 <= c < |index| ==>
      orbit[c] == if index[c] < orbits.Length && orbits[index[c]] != [] && c in classes[index[c]]
                  then Next(classes[index[c]], c) else 0
  {
    for n := 0 to orbits.Length
      invariant forall c :: 0 <= c < |index| ==>
        orbit[c] == if index[c] < n && orbits[index[c]] != [] && c in classes[index[c]]
                    then Next(classes[index[c]], c) else 0
    {
      if orbits[n] == [] { continue; }
      assert orbits[..][n] == orbits[n];
      assert IsClass(orbits[n], classes[n], index, n);
      var ordered := SortCodes(orbits[n]);
      forall i | 0 <= i < |ordered| ensures ordered[i] < orbit.Length { assert ordered[i] in classes[n]; }
      WriteCycle(orbit, ordered);
    }
  }

  lemma {:induction false} GroupsPartition(chars: Chars, groups: seq<seq<nat>>, classes: seq<seq<nat>>, index: seq<nat>)
    requires Sane(chars) && |groups| == |classes| == |index| == |chars|
    requires forall t :: 0 <= t < |chars| ==> groups[t] == Kept(chars, t) && classes[t] == ClassOf(chars, t)
    requires forall c :: 0 <= c < |chars| ==> index[c] == Target(chars, c)
    ensures Partition(groups, classes, index)
  {
    forall n | 0 <= n < |groups| && groups[n] != [] ensures IsClass(groups[n], classes[n], index, n) {
      SortedGroup(chars, n);
      ClassIncreasing(chars, n, |chars|);
      GroupIsClass(chars, n, n);
      assert n in classes[n];
    }
  }

  lemma {:induction false} KeptFrom(chars: Chars, groups: seq<seq<nat>>, kept: seq<seq<nat>>)
    requires Sane(chars) && |groups| == |kept| == |chars|
    requires forall t :: 0 <= t < |chars| ==> groups[t] == Grouped(chars, t)
    requires forall t :: 0 <= t < |chars| ==> kept[t] == if Dropped(chars, groups[t]) then [] else groups[t]
    ensures forall t :: 0 <= t < |chars| ==> kept[t] == Kept(chars, t)
  {
  }

  lemma {:induction false} GroupsInRange(chars: Chars, t: nat)
    requires Sane(chars) && t < |chars|
    ensures forall x :: x in Grouped(chars, t) ==> x < |chars|
  {
    forall x | x in Grouped(chars, t) ensures x < |chars| { GroupIsClass(chars, t, x); }
  }

  lemma {:induction false} OrbitsAre(chars: Chars, kept: seq<seq<nat>>, classes: seq<seq<nat>>, index: seq<nat>,
                                     orbit: seq<nat>)
    requires Sane(chars) && |kept| == |classes| == |index| == |orbit| == |chars|
    requires forall t :: 0 <= t < |chars| ==> kept[t] == Kept(chars, t) && classes[t] == ClassOf(chars, t)
    requires forall c :: 0 <= c < |chars| ==> index[c] == Target(chars, c)
    requires forall c :: 0 <= c < |chars| ==>
      orbit[c] == if index[c] < |chars| && kept[index[c]] != [] && c in classes[index[c]]
                  then Next(classes[index[c]], c) else 0
    ensures Built(chars, orbit)
  {
    forall c | 0 <= c < |chars| ensures Target(chars, c) < |chars| && orbit[c] == OrbitOf(chars, c) {
      TargetInside(chars, c);
      assert c in ClassOf(chars, Target(chars, c));
      assert kept[index[c]] == Kept(chars, Target(chars, c));
    }
  }

  /** `_build_orbits` */
  method BuildOrbits(chars: Chars, orbit: array<nat>)
    requires Sane(chars) && orbit.Length == |chars| && forall c :: 0 <= c < orbit.Length ==> orbit[c] == 0
    modifies orbit
    ensures Built(chars, orbit[..])
  {
    var orbits := new seq<nat>[|chars|](_ => []);
    Gather(chars, orbits);
    AddSingles(chars, orbits);
    ghost var groups := orbits[..];
    forall t, x | 0 <= t < orbits.Length && x in orbits[t] ensures x < |chars| {
      assert orbits[t] == groups[t];
      GroupsInRange(chars, t);
    }
    DropPairs(chars, orbits);
    KeptFrom(chars, groups, orbits[..]);
    ghost var classes := seq(|chars|, t requires 0 <= t < |chars| => ClassOf(chars, t));
    ghost var index := seq(|chars|, c requires 0 <= c < |chars| => Target(chars, c));
    GroupsPartition(chars, orbits[..], classes, index);
    WriteCycles(orbits, orbit, classes, index);
    OrbitsAre(chars, orbits[..], classes, index, orbit[..]);
  }

  // --- what SimpleFold answers --------------------------------------------------------------------

  /** `simple_fold_of` */
  function SimpleFold(chars: Chars, orbit: seq<nat>, c: nat): nat
    requires c < |chars| == |orbit|
  {
    if orbit[c] != 0 then orbit[c]
    else if chars[c].lower != 0 && chars[c].lower != c then chars[c].lower
    else if chars[c].upper != 0 && chars[c].upper != c then chars[c].upper
    else c
  }

  /** In a pair, the one whose upper case is the other has no lower case outside the pair. */
  predicate TidyPair(chars: Chars, a: nat, b: nat)
    requires a < |chars| && b < |chars|
  {
    && (CasePair(chars, a, b) ==> chars[a].lower in {0, a, b})
    && (CasePair(chars, b, a) ==> chars[b].lower in {0, a, b})
  }

  lemma {:induction false} SortTwo(a: nat, b: nat)
    ensures SortCodes([a, b]) == if a <= b then [a, b] else [b, a]
  {
    assert [a, b][1..] == [b] && [b][1..] == [];
    assert SortCodes([]) == [];
    assert InsertCode(b, []) == [b];
    assert SortCodes([b]) == [b];
    assert InsertCode(a, [b][1..]) == [a];
    assert InsertCode(a, [b]) == if a <= b then [a] + [b] else [b] + [a];
  }

  /** A dropped pair is a fold target and the one code point that folds to it. */
  lemma {:induction false} PairShape(chars: Chars, t: nat)
    requires Sane(chars) && t < |chars| && Dropped(chars, Grouped(chars, t))
    ensures Grouped(chars, t)[0] == t != Grouped(chars, t)[1]
    ensures Target(chars, t) == t && Target(chars, Grouped(chars, t)[1]) == t
  {
    var f := Folders(chars, t, |chars|);
    assert Grouped(chars, t) == [t] + f;
    assert f[0] in f;
    assert chars[f[0]].fold == t && chars[t].fold == 0;
  }

  lemma {:induction false} TwoAround(s: seq<nat>, a: nat, b: nat)
    requires a != b && s == SortCodes([a, b])
    ensures a in s && b in s && Next(s, a) == b && Next(s, b) == a
  {
    SortTwo(a, b);
  }

  lemma {:induction false} PairClass(chars: Chars, t: nat)
    requires Sane(chars) && t < |chars| && Dropped(chars, Grouped(chars, t))
    ensures var g := Grouped(chars, t); var s := ClassOf(chars, t);
      && g[0] != g[1] && g[0] in s && g[1] in s
      && Target(chars, g[0]) == t && Target(chars, g[1]) == t
      && Next(s, g[0]) == g[1] && Next(s, g[1]) == g[0]
  {
    var g := Grouped(chars, t);
    PairShape(chars, t);
    SortedGroup(chars, t);
    assert g == [g[0], g[1]];
    TwoAround(ClassOf(chars, t), g[0], g[1]);
  }

  /** Away from dropped pairs `SimpleFold` always gives the next of the class. */
  lemma {:induction false} FoldElsewhere(chars: Chars, orbit: seq<nat>, c: nat)
    requires Built(chars, orbit) && c < |chars|
    requires !Dropped(chars, Grouped(chars, Target(chars, c)))
    ensures SimpleFold(chars, orbit, c) == Next(ClassOf(chars, Target(chars, c)), c)
  {
    var t := Target(chars, c);
    if Grouped(chars, t) == [] {
      NoGroup(chars, c);
      assert orbit[c] == 0;
    } else {
      GroupIsClass(chars, t, 0);
      var next := Next(ClassOf(chars, t), c);
      assert chars[0].fold == 0;
      assert next != 0;
    }
  }

  /** `SimpleFold` takes a code point to the next of its class. */
  ghost predicate FoldsOn(chars: Chars, orbit: seq<nat>, c: nat)
    requires c < |chars| == |orbit|
  {
    SimpleFold(chars, orbit, c) == Next(ClassOf(chars, Target(chars, c)), c)
  }

  /** If pass three drops the group at `t`, it is a tidy pair. */
  ghost predicate TidyAt(chars: Chars, t: nat)
    requires t < |chars|
  {
    Dropped(chars, Grouped(chars, t)) ==> TidyPair(chars, Grouped(chars, t)[0], Grouped(chars, t)[1])
  }

  /** In a dropped pair it does so exactly when the pair is tidy. */
  lemma {:induction false} FoldPair(chars: Chars, orbit: seq<nat>, t: nat)
    requires Built(chars, orbit) && t < |chars| && Dropped(chars, Grouped(chars, t))
    ensures TidyAt(chars, t)
      <==> FoldsOn(chars, orbit, Grouped(chars, t)[0]) && FoldsOn(chars, orbit, Grouped(chars, t)[1])
  {
    var a, b := Grouped(chars, t)[0], Grouped(chars, t)[1];
    PairClass(chars, t);
    GroupIsClass(chars, t, t);
    assert Target(chars, 0) == 0;
    assert a != 0 && b != 0;
    assert orbit[a] == 0 && orbit[b] == 0;
  }

  lemma {:induction false} PairMembers(chars: Chars, c: nat)
    requires Sane(chars) && c < |chars| && Target(chars, c) < |chars|
    requires Dropped(chars, Grouped(chars, Target(chars, c)))
    ensures var g := Grouped(chars, Target(chars, c)); c == g[0] || c == g[1]
  {
    GroupIsClass(chars, Target(chars, c), c);
    assert c in Grouped(chars, Target(chars, c));
  }

  /**
   `SimpleFold` walks every class from the smallest to the largest and round
   again, if and only if the pairs that pass three drops are tidy.
   */
  lemma {:induction false} FoldExactly(chars: Chars, orbit: seq<nat>)
    requires Built(chars, orbit)
    ensures (forall c :: 0 <= c < |chars| ==> FoldsOn(chars, orbit, c))
      <==> (forall t :: 0 <= t < |chars| ==> TidyAt(chars, t))
  {
    if forall c :: 0 <= c < |chars| ==> FoldsOn(chars, orbit, c) {
      forall t | 0 <= t < |chars| ensures TidyAt(chars, t) {
        if Dropped(chars, Grouped(chars, t)) { FoldPair(chars, orbit, t); }
      }
    }
    if forall t :: 0 <= t < |chars| ==> TidyAt(chars, t) {
      forall c | 0 <= c < |chars| ensures FoldsOn(chars, orbit, c) {
        var t := Target(chars, c);
        if Dropped(chars, Grouped(chars, t)) {
          FoldPair(chars, orbit, t);
          PairMembers(chars, c);
        } else {
          FoldElsewhere(chars, orbit, c);
        }
      }
    }
  }

  // --- a database that is not tidy ------------------------------------------------------------

  /** Two letters that are each other's cases, the small one with a lower case of its own. */
  function Untidy(): Chars {
    [Char(0, 0, 0, 0, true), Char(0, 2, 0, 0, true), Char(1, 3, 0, 1, true), Char(0, 0, 0, 0, true)]
  }

  lemma {:induction false} UntidyFolders()
    ensures Folders(Untidy(), 1, 4) == [2] && Grouped(Untidy(), 1) == [1, 2]
  {
    var chars := Untidy();
    assert Folders(chars, 1, 0) == [] && Folders(chars, 1, 1) == [] && Folders(chars, 1, 2) == [];
    assert Folders(chars, 1, 3) == [2] && Folders(chars, 1, 4) == [2];
    assert [1] + [2] == [1, 2];
  }

  /** Pass three drops the pair, and `SimpleFold` then leaves it. */
  lemma {:induction false} UntidyExample(orbit: seq<nat>)
    requires Built(Untidy(), orbit)
    ensures Sane(Untidy()) && Dropped(Untidy(), Grouped(Untidy(), 1)) && !TidyAt(Untidy(), 1)
    ensures SimpleFold(Untidy(), orbit, 2) == 3 && !FoldsOn(Untidy(), orbit, 2)
  {
    UntidyFolders();
    PairClass(Untidy(), 1);
    assert orbit[2] == 0;
  }
}
