/**
 The package graph checker: `check_graph` of `lint/run.py`, a memoised depth
 first search that reports cycles and gives every package the length of its
 longest chain of dependencies.
 */
module PackageGraph {
  import opened Common

  /** A manifest.  `home` says that the package is where its name puts it. */
  datatype Package = Package(name: string, home: bool, tier: int, deps: seq<string>)

  datatype Problem =
    | Misplaced(name: string)
    | Undeclared(name: string, dep: string)
    | OutOfOrder(name: string)
    | Cycle(path: seq<string>)
    | WrongTier(name: string, want: int)

  type Index = map<string, Package>

  // --- the graph ------------------------------------------------------------------------

  predicate Edge(g: Index, a: string, b: string) {
    a in g && b in g && b in g[a].deps
  }

  ghost predicate Path(g: Index, p: seq<string>) {
    && p != [] && (forall i :: 0 <= i < |p| ==> p[i] in g)
    && forall i :: 0 < i < |p| ==> Edge(g, p[i - 1], p[i])
  }

  /** A path of at least one step that ends where it starts. */
  ghost predicate Closed(g: Index, p: seq<string>) {
    Path(g, p) && |p| >= 2 && p[0] == p[|p| - 1]
  }

  /** The most steps a path from `n` can take. */
  ghost predicate Longest(g: Index, n: string, k: int) {
    && (forall p :: Path(g, p) && p[0] == n ==> |p| - 1 <= k)
    && exists p :: Path(g, p) && p[0] == n && |p| - 1 == k
  }

  predicate HasCycle(problems: seq<Problem>) {
    exists i :: 0 <= i < |problems| && problems[i].Cycle?
  }

  ghost predicate RealCycles(g: Index, problems: seq<Problem>) {
    forall i :: 0 <= i < |problems| && problems[i].Cycle? ==> Closed(g, problems[i].path)
  }

  // --- what the search has worked out ------------------------------------------------------

  /** The greatest depth among the packages of `deps` that are in the tree, or -1. */
  function Deepest(g: Index, depth: map<string, nat>, deps: seq<string>): (r: int)
    ensures r >= -1
  {
    if deps == [] then -1
    else
      var rest, d := Deepest(g, depth, deps[..|deps| - 1]), deps[|deps| - 1];
      if d in g && d in depth && depth[d] > rest then depth[d] else rest
  }

  ghost predicate Covered(g: Index, depth: map<string, nat>, deps: seq<string>) {
    forall d :: d in deps && d in g ==> d in depth
  }

  /** A depth is one more than the deepest dependency's. */
  ghost predicate Settled(g: Index, depth: map<string, nat>) {
    forall n :: n in depth ==> SettledAt(g, depth, n)
  }

  ghost predicate SettledAt(g: Index, depth: map<string, nat>, n: string)
    requires n in depth
  {
    n in g && Covered(g, depth, g[n].deps) && depth[n] == 1 + Deepest(g, depth, g[n].deps)
  }

  ghost predicate Extends(before: map<string, nat>, after: map<string, nat>) {
    forall n :: n in before ==> n in after && after[n] == before[n]
  }

  lemma {:induction false} DeepestStays(g: Index, before: map<string, nat>, after: map<string, nat>, deps: seq<string>)
    requires Extends(before, after) && Covered(g, before, deps)
    ensures Covered(g, after, deps) && Deepest(g, after, deps) == Deepest(g, before, deps)
  {
    if deps != [] {
      var init := deps[..|deps| - 1];
      assert forall d :: d in init ==> d in deps;
      DeepestStays(g, before, after, init);
      assert deps[|deps| - 1] in deps;
    }
  }

  lemma {:induction false} DeepestAtLeast(g: Index, depth: map<string, nat>, deps: seq<string>, d: string)
    requires d in deps && d in g && d in depth
    ensures Deepest(g, depth, deps) >= depth[d]
  {
    if d != deps[|deps| - 1] { DeepestAtLeast(g, depth, deps[..|deps| - 1], d); }
  }

  lemma {:induction false} DeepestReached(g: Index, depth: map<string, nat>, deps: seq<string>) returns (d: string)
    requires Deepest(g, depth, deps) >= 0
    ensures d in deps && d in g && d in depth && depth[d] == Deepest(g, depth, deps)
  {
    d := deps[|deps| - 1];
    if !(d in g && d in depth && depth[d] == Deepest(g, depth, deps)) {
      d := DeepestReached(g, depth, deps[..|deps| - 1]);
    }
  }

  lemma {:induction false} SettledNext(g: Index, before: map<string, nat>, n: string)
    requires Settled(g, before) && n !in before && n in g && Covered(g, before, g[n].deps)
    ensures Settled(g, before[n := (1 + Deepest(g, before, g[n].deps)) as nat])
  {
    var now := before[n := (1 + Deepest(g, before, g[n].deps)) as nat];
    forall m | m in now ensures SettledAt(g, now, m) {
      assert m == n || SettledAt(g, before, m);
      DeepestStays(g, before, now, g[m].deps);
    }
  }

  // --- what settled depths mean ------------------------------------------------------------

  /** Along a path the depth falls by at least one a step. */
  lemma {:induction false} DepthFalls(g: Index, depth: map<string, nat>, p: seq<string>)
    requires Settled(g, depth) && g.Keys <= depth.Keys && Path(g, p)
    ensures depth[p[0]] >= depth[p[|p| - 1]] + |p| - 1
  {
    if |p| > 1 {
      var rest := p[1..];
      forall i | 0 < i < |rest| ensures Edge(g, rest[i - 1], rest[i]) { assert Edge(g, p[i], p[i + 1]); }
      DepthFalls(g, depth, rest);
      assert Edge(g, p[0], p[1]) && SettledAt(g, depth, p[0]);
      DeepestAtLeast(g, depth, g[p[0]].deps, p[1]);
    }
  }

  lemma {:induction false} DepthReached(g: Index, depth: map<string, nat>, n: string) returns (p: seq<string>)
    requires Settled(g, depth) && g.Keys <= depth.Keys && n in g
    ensures Path(g, p) && p[0] == n && |p| - 1 == depth[n]
    decreases depth[n]
  {
    assert SettledAt(g, depth, n);
    if depth[n] == 0 {
      p := [n];
    } else {
      var d := DeepestReached(g, depth, g[n].deps);
      var rest := DepthReached(g, depth, d);
      p := [n] + rest;
      forall i | 0 < i < |p| ensures Edge(g, p[i - 1], p[i]) {
        if i > 1 { assert Edge(g, rest[i - 2], rest[i - 1]); }
      }
    }
  }

  /** With every depth settled there is no cycle, and the depths are the longest paths. */
  lemma {:induction false} SettledMeans(g: Index, depth: map<string, nat>)
    requires Settled(g, depth) && g.Keys <= depth.Keys
    ensures forall p :: !Closed(g, p)
    ensures forall n :: n in g ==> Longest(g, n, depth[n])
  {
    forall p ensures !Closed(g, p) {
      if Closed(g, p) { DepthFalls(g, depth, p); }
    }
    forall n | n in g ensures Longest(g, n, depth[n]) {
      forall p | Path(g, p) && p[0] == n ensures |p| - 1 <= depth[n] { DepthFalls(g, depth, p); }
      var p := DepthReached(g, depth, n);
      assert Path(g, p) && p[0] == n && |p| - 1 == depth[n];
    }
  }

  lemma {:induction false} LongestIsOne(g: Index, n: string, j: int, k: int)
    requires Longest(g, n, j) && Longest(g, n, k)
    ensures j == k
  {
    var p :| Path(g, p) && p[0] == n && |p| - 1 == j;
    var q :| Path(g, q) && q[0] == n && |q| - 1 == k;
  }

  // --- the search -----------------------------------------------------------------------------

  /** Where a name is in the path being walked. */
  function IndexOf(s: seq<string>, x: string): (i: nat)
    requires x in s
    ensures i < |s| && s[i] == x
  {
    if s[0] == x then 0 else 1 + IndexOf(s[1..], x)
  }

  /** The packages being walked: a path, each once, none of them finished. */
  ghost predicate Walking(g: Index, visiting: seq<string>, depth: map<string, nat>) {
    && (visiting == [] || Path(g, visiting)) && Distinct(visiting)
    && forall v :: v in visiting ==> v !in depth
  }

  lemma {:induction false} WalkingMore(g: Index, visiting: seq<string>, depth: map<string, nat>, n: string)
    requires Walking(g, visiting, depth) && n in g && n !in visiting && n !in depth
    requires visiting == [] || Edge(g, visiting[|visiting| - 1], n)
    ensures Walking(g, visiting + [n], depth)
  {
    var longer := visiting + [n];
    forall i | 0 < i < |longer| ensures Edge(g, longer[i - 1], longer[i]) {
      if i < |visiting| { assert Edge(g, visiting[i - 1], visiting[i]); }
    }
  }

  /** Closing the path being walked makes a real cycle. */
  lemma {:induction false} CycleIsReal(g: Index, visiting: seq<string>, n: string)
    requires Path(g, visiting) && n in visiting && Edge(g, visiting[|visiting| - 1], n)
    ensures Closed(g, visiting[IndexOf(visiting, n)..] + [n])
  {
    var k := IndexOf(visiting, n);
    var p := visiting[k..] + [n];
    forall i | 0 < i < |p| ensures Edge(g, p[i - 1], p[i]) {
      if i < |p| - 1 { assert Edge(g, visiting[k + i - 1], visiting[k + i]); }
    }
  }

  lemma {:induction false} DistinctFits(s: seq<string>, names: set<string>)
    requires Distinct(s) && forall x :: x in s ==> x in names
    ensures |s| <= |names|
  {
    if s != [] {
      var init, last := s[..|s| - 1], s[|s| - 1];
      forall x | x in init ensures x in names - {last} { assert x in s; }
      DistinctFits(init, names - {last});
    }
  }

  class Search {
    const g: Index
    var depth: map<string, nat>
    var visiting: seq<string>
    var problems: seq<Problem>

    constructor (g: Index, problems: seq<Problem>)
      ensures this.g == g && depth == map[] && visiting == [] && this.problems == problems
    {
      this.g, this.depth, this.visiting, this.problems := g, map[], [], problems;
    }

    ghost predicate Valid()
      reads this
    {
      && Walking(g, visiting, depth) && RealCycles(g, problems)
      && (!HasCycle(problems) ==> Settled(g, depth))
      && depth.Keys <= g.Keys
    }

    /** What a step of the search adds: depths, and cycles. */
    twostate predicate Grows()
      reads this
    {
      && Extends(old(depth), depth) && old(problems) <= problems
      && forall i :: |old(problems)| <= i < |problems| ==> problems[i].Cycle?
    }

    /** `walk` */
    method Walk(name: string) returns (value: nat)
      requires Valid() && name in g
      requires visiting == [] || Edge(g, visiting[|visiting| - 1], name)
      modifies this
      ensures Valid() && Grows() && visiting == old(visiting)
      ensures !HasCycle(problems) ==> name in depth && value == depth[name]
      ensures name in old(visiting) || name in depth
      decreases |g| - |visiting|, 0
    {
      if name in depth { return depth[name]; }
      if name in visiting {
        CycleIsReal(g, visiting, name);
        problems := problems + [Cycle(visiting[IndexOf(visiting, name)..] + [name])];
        assert problems[|problems| - 1].Cycle?;
        return 0;
      }
      WalkingMore(g, visiting, depth, name);
      DistinctFits(visiting + [name], g.Keys);
      visiting := visiting + [name];
      var best := Children(name);
      ghost var settled := depth;
      visiting := visiting[..|visiting| - 1];
      assert visiting == old(visiting);
      value := 1 + best;
      depth := depth[name := value];
      Popped(settled, old(visiting), name, value);
    }

    /** The generator inside `max`: every dependency in the tree is walked, and the deepest kept. */
    method Children(name: string) returns (best: int)
      requires Valid() && name in g && visiting != [] && visiting[|visiting| - 1] == name && |visiting| <= |g|
      modifies this
      ensures Valid() && Grows() && visiting == old(visiting) && best >= -1
      ensures !HasCycle(problems) ==> Covered(g, depth, g[name].deps) && best == Deepest(g, depth, g[name].deps)
      decreases |g| - |visiting|, 2
    {
      var deps := g[name].deps;
      best := -1;
      for i := 0 to |deps|
        invariant Valid() && Grows() && visiting == old(visiting) && best >= -1
        invariant !HasCycle(problems) ==> Covered(g, depth, deps[..i]) && best == Deepest(g, depth, deps[..i])
      {
        var d := deps[i];
        ghost var before, found := depth, problems;
        assert deps[..i + 1][..i] == deps[..i];
        if d in g {
          DistinctFits(visiting, g.Keys);
          assert Edge(g, name, d);
          best := ChildDepth(name, d, best);
          if !HasCycle(problems) {
            if HasCycle(found) { MoreCycles(found, problems); }
            DeepestStays(g, before, depth, deps[..i]);
          }
        }
      }
      assert deps[..|deps|] == deps;
    }

    /** One dependency: the deeper of it and what there was. */
    method ChildDepth(name: string, d: string, best: int) returns (more: int)
      requires Valid() && best >= -1 && visiting != [] && visiting[|visiting| - 1] == name && Edge(g, name, d)
      requires |visiting| <= |g|
      modifies this
      ensures Valid() && Grows() && visiting == old(visiting) && more >= -1
      ensures !HasCycle(problems) ==> d in depth && more == if depth[d] > best then depth[d] else best
      decreases |g| - |visiting|, 1
    {
      var v := Walk(d);
      more := if v > best then v else best;
    }

    lemma {:induction false} Popped(before: map<string, nat>, rest: seq<string>, name: string, value: nat)
      requires Walking(g, rest + [name], before) && (rest == [] || Path(g, rest)) && name in g
      requires !HasCycle(problems) ==>
        Settled(g, before) && Covered(g, before, g[name].deps) && value == 1 + Deepest(g, before, g[name].deps)
      ensures Walking(g, rest, before[name := value]) && Extends(before, before[name := value])
      ensures !HasCycle(problems) ==> Settled(g, before[name := value])
    {
      assert name in rest + [name];
      forall v | v in rest ensures v != name && v !in before {
        var i :| 0 <= i < |rest| && rest[i] == v;
        assert (rest + [name])[i] == v && (rest + [name])[|rest|] == name;
      }
      forall i, j | 0 <= i < j < |rest| ensures rest[i] != rest[j] {
        assert (rest + [name])[i] != (rest + [name])[j];
      }
      if !HasCycle(problems) { SettledNext(g, before, name); }
    }
  }

  lemma {:induction false} MoreCycles(before: seq<Problem>, now: seq<Problem>)
    requires before <= now && HasCycle(before)
    ensures HasCycle(now)
  {
    var i :| 0 <= i < |before| && before[i].Cycle?;
    assert now[i].Cycle?;
  }

  // --- the checker ------------------------------------------------------------------------------

  /** What the first loop says of one package. */
  function Complaints(g: Index, pkg: Package): seq<Problem> {
    (if pkg.home then [] else [Misplaced(pkg.name)])
    + Strangers(g, pkg.name, pkg.deps)
    + (if pkg.deps == Sort(pkg.deps) then [] else [OutOfOrder(pkg.name)])
  }

  function Strangers(g: Index, name: string, deps: seq<string>): seq<Problem> {
    if deps == [] then []
    else
      Strangers(g, name, deps[..|deps| - 1])
      + (if deps[|deps| - 1] in g then [] else [Undeclared(name, deps[|deps| - 1])])
  }

  lemma {:induction false} StrangersExactly(g: Index, name: string, deps: seq<string>)
    ensures forall x :: x in Strangers(g, name, deps) <==>
      x.Undeclared? && x.name == name && x.dep in deps && x.dep !in g
    ensures Strangers(g, name, deps) == [] <==> forall d :: d in deps ==> d in g
    ensures !HasCycle(Strangers(g, name, deps))
  {
    if deps != [] {
      var init := deps[..|deps| - 1];
      StrangersExactly(g, name, init);
      assert forall d :: d in deps <==> d in init || d == deps[|deps| - 1];
    }
  }

  /** A manifest with nothing wrong in it, looked at on its own. */
  ghost predicate Neat(g: Index, pkg: Package) {
    pkg.home && (forall d :: d in pkg.deps ==> d in g) && InOrder(pkg.deps)
  }

  /** What there is to say of one manifest. */
  ghost predicate Earns(g: Index, pkg: Package, x: Problem) {
    match x
    case Misplaced(name) => name == pkg.name && !pkg.home
    case Undeclared(name, dep) => name == pkg.name && dep in pkg.deps && dep !in g
    case OutOfOrder(name) => name == pkg.name && !InOrder(pkg.deps)
    case Cycle(_) => false
    case WrongTier(_, _) => false
  }

  lemma {:induction false} ComplaintsExactly(g: Index, pkg: Package)
    ensures forall x :: x in Complaints(g, pkg) <==> Earns(g, pkg, x)
    ensures Complaints(g, pkg) == [] <==> Neat(g, pkg)
    ensures !HasCycle(Complaints(g, pkg))
  {
    StrangersExactly(g, pkg.name, pkg.deps);
    SortedExactly(pkg.deps);
    hide Strangers, Sort, InOrder;
    var home := if pkg.home then [] else [Misplaced(pkg.name)];
    var order := if pkg.deps == Sort(pkg.deps) then [] else [OutOfOrder(pkg.name)];
    assert Complaints(g, pkg) == home + Strangers(g, pkg.name, pkg.deps) + order;
    hide Complaints;
    assert forall x :: x in home <==> x == Misplaced(pkg.name) && !pkg.home;
    assert forall x :: x in order <==> x == OutOfOrder(pkg.name) && !InOrder(pkg.deps);
    forall x ensures x in Complaints(g, pkg) <==> Earns(g, pkg, x) {}
    NoneIn(Complaints(g, pkg), g, pkg);
  }

  lemma {:induction false} NoneIn(problems: seq<Problem>, g: Index, pkg: Package)
    requires forall x :: x in problems <==> Earns(g, pkg, x)
    ensures problems == [] <==> Neat(g, pkg)
  {
    hide InOrder;
    if problems == [] {
      assert !Earns(g, pkg, Misplaced(pkg.name)) && !Earns(g, pkg, OutOfOrder(pkg.name));
      forall d | d in pkg.deps ensures d in g { assert !Earns(g, pkg, Undeclared(pkg.name, d)); }
    } else {
      assert Earns(g, pkg, problems[0]);
    }
  }

  /** The packages by name, a later one in place of an earlier. */
  function Tree(pkgs: seq<Package>): Index {
    if pkgs == [] then map[] else Tree(pkgs[..|pkgs| - 1])[pkgs[|pkgs| - 1].name := pkgs[|pkgs| - 1]]
  }

  /** `{p.name: p for p in pkgs}` */
  method ByName(pkgs: seq<Package>) returns (g: Index)
    ensures g == Tree(pkgs)
  {
    g := map[];
    for i := 0 to |pkgs|
      invariant g == Tree(pkgs[..i])
    {
      assert pkgs[..i + 1][..i] == pkgs[..i];
      g := g[pkgs[i].name := pkgs[i]];
    }
    assert pkgs[..|pkgs|] == pkgs;
  }

  ghost predicate DistinctlyNamed(pkgs: seq<Package>) {
    forall i, j :: 0 <= i < j < |pkgs| ==> pkgs[i].name != pkgs[j].name
  }

  lemma {:induction false} TreeIndexes(pkgs: seq<Package>)
    requires DistinctlyNamed(pkgs)
    ensures Indexed(Tree(pkgs), pkgs)
  {
    if pkgs != [] {
      var init, last := pkgs[..|pkgs| - 1], pkgs[|pkgs| - 1];
      TreeIndexes(init);
      forall i | 0 <= i < |pkgs| ensures pkgs[i].name in Tree(pkgs) && Tree(pkgs)[pkgs[i].name] == pkgs[i] {
        if i < |init| { assert init[i] == pkgs[i]; }
      }
      forall n | n in Tree(pkgs) ensures exists i :: 0 <= i < |pkgs| && pkgs[i].name == n {
        if n != last.name {
          var i :| 0 <= i < |init| && init[i].name == n;
          assert pkgs[i].name == n;
        } else {
          assert pkgs[|pkgs| - 1].name == n;
        }
      }
    }
  }

  ghost predicate Indexed(g: Index, pkgs: seq<Package>) {
    && (forall i :: 0 <= i < |pkgs| ==> pkgs[i].name in g && g[pkgs[i].name] == pkgs[i])
    && (forall n :: n in g ==> exists i :: 0 <= i < |pkgs| && pkgs[i].name == n)
  }

  ghost predicate EarnedTo(g: Index, pkgs: seq<Package>, n: nat, x: Problem)
    requires n <= |pkgs|
  {
    exists i :: 0 <= i < n && Earns(g, pkgs[i], x)
  }

  lemma {:induction false} EarnedNext(g: Index, pkgs: seq<Package>, i: nat, x: Problem)
    requires i < |pkgs|
    ensures EarnedTo(g, pkgs, i + 1, x) <==> EarnedTo(g, pkgs, i, x) || Earns(g, pkgs[i], x)
  {
    if EarnedTo(g, pkgs, i, x) {
      var j :| 0 <= j < i && Earns(g, pkgs[j], x);
      assert Earns(g, pkgs[j], x);
    }
  }

  /** The first loop over the manifests. */
  method Manifests(g: Index, pkgs: seq<Package>) returns (problems: seq<Problem>)
    ensures problems == [] <==> forall i :: 0 <= i < |pkgs| ==> Neat(g, pkgs[i])
    ensures forall x :: x in problems <==> EarnedTo(g, pkgs, |pkgs|, x)
    ensures !HasCycle(problems)
  {
    hide Earns, Neat, EarnedTo;
    problems := [];
    forall x ensures !EarnedTo(g, pkgs, 0, x) { NothingEarned(g, pkgs, x); }
    for i := 0 to |pkgs|
      invariant problems == [] <==> forall j :: 0 <= j < i ==> Neat(g, pkgs[j])
      invariant forall x :: x in problems <==> EarnedTo(g, pkgs, i, x)
      invariant !HasCycle(problems)
    {
      ComplaintsExactly(g, pkgs[i]);
      forall x ensures EarnedTo(g, pkgs, i + 1, x) <==> EarnedTo(g, pkgs, i, x) || Earns(g, pkgs[i], x) {
        EarnedNext(g, pkgs, i, x);
      }
      problems := problems + Complaints(g, pkgs[i]);
    }
  }

  lemma {:induction false} NothingEarned(g: Index, pkgs: seq<Package>, x: Problem)
    ensures !EarnedTo(g, pkgs, 0, x)
  {
  }

  /** What the checker promises of a tree it accepts. */
  ghost predicate Sound(g: Index, pkgs: seq<Package>) {
    && (forall i :: 0 <= i < |pkgs| ==> Neat(g, pkgs[i]))
    && (forall p :: !Closed(g, p))
    && (forall i :: 0 <= i < |pkgs| ==> Longest(g, pkgs[i].name, pkgs[i].tier))
  }

  /** The tiers seen to be right so far, while there is no cycle. */
  ghost predicate TiersTo(depth: map<string, nat>, pkgs: seq<Package>, n: nat)
    requires n <= |pkgs|
  {
    forall i :: 0 <= i < n ==> pkgs[i].name in depth && depth[pkgs[i].name] == pkgs[i].tier
  }

  /** The package is declared in another tier than this one, its depth. */
  ghost predicate Mistiered(depth: map<string, nat>, pkg: Package, x: Problem) {
    pkg.name in depth && depth[pkg.name] != pkg.tier && x == WrongTier(pkg.name, depth[pkg.name])
  }

  ghost predicate MistieredTo(depth: map<string, nat>, pkgs: seq<Package>, n: nat, x: Problem)
    requires n <= |pkgs|
  {
    exists i :: 0 <= i < n && Mistiered(depth, pkgs[i], x)
  }

  lemma {:induction false} MistieredNext(before: map<string, nat>, now: map<string, nat>, pkgs: seq<Package>, i: nat,
                                         x: Problem)
    requires i < |pkgs| && Extends(before, now) && forall j :: 0 <= j < i ==> pkgs[j].name in before
    ensures MistieredTo(now, pkgs, i + 1, x) <==> MistieredTo(before, pkgs, i, x) || Mistiered(now, pkgs[i], x)
  {
    if MistieredTo(before, pkgs, i, x) {
      var j :| 0 <= j < i && Mistiered(before, pkgs[j], x);
      assert Mistiered(now, pkgs[j], x);
    }
    if MistieredTo(now, pkgs, i + 1, x) && !Mistiered(now, pkgs[i], x) {
      var j :| 0 <= j < i + 1 && Mistiered(now, pkgs[j], x);
      assert Mistiered(before, pkgs[j], x);
    }
  }

  /** The second loop: a walk from every package, and its tier. */
  method Tiers(s: Search, pkgs: seq<Package>, ghost first: seq<Problem>)
    requires s.Valid() && s.visiting == [] && s.depth == map[] && s.problems == first && !HasCycle(first)
    requires Indexed(s.g, pkgs)
    modifies s
    ensures s.Valid() && first <= s.problems
    ensures !HasCycle(s.problems) ==> s.g.Keys <= s.depth.Keys
    ensures !HasCycle(s.problems) ==>
      forall x :: x in s.problems <==> x in first || MistieredTo(s.depth, pkgs, |pkgs|, x)
    ensures forall x :: x in s.problems ==> x in first || x.Cycle? || x.WrongTier?
  {
    hide MistieredTo, Mistiered, Walking, Settled, Indexed;
    forall x ensures !MistieredTo(map[], pkgs, 0, x) { NoneMistiered(pkgs, x); }
    for i := 0 to |pkgs|
      invariant s.Valid() && s.visiting == [] && first <= s.problems
      invariant !HasCycle(s.problems) ==> forall j :: 0 <= j < i ==> pkgs[j].name in s.depth
      invariant !HasCycle(s.problems) ==>
        forall x :: x in s.problems <==> x in first || MistieredTo(s.depth, pkgs, i, x)
      invariant forall x :: x in s.problems ==> x in first || x.Cycle? || x.WrongTier?
    {
      ghost var before := s.depth;
      assert pkgs[i].name in s.g by { IndexedAt(s.g, pkgs, i); }
      OneTier(s, pkgs[i]);
      if !HasCycle(s.problems) {
        forall x ensures MistieredTo(s.depth, pkgs, i + 1, x)
            <==> MistieredTo(before, pkgs, i, x) || Mistiered(s.depth, pkgs[i], x)
        {
          MistieredNext(before, s.depth, pkgs, i, x);
        }
      }
    }
    if !HasCycle(s.problems) { AllReached(s.g, pkgs, s.depth); }
  }

  lemma {:induction false} IndexedAt(g: Index, pkgs: seq<Package>, i: nat)
    requires Indexed(g, pkgs) && i < |pkgs|
    ensures pkgs[i].name in g
  {
  }

  lemma {:induction false} AllReached(g: Index, pkgs: seq<Package>, depth: map<string, nat>)
    requires Indexed(g, pkgs) && forall j :: 0 <= j < |pkgs| ==> pkgs[j].name in depth
    ensures g.Keys <= depth.Keys
  {
    forall n | n in g ensures n in depth { var i :| 0 <= i < |pkgs| && pkgs[i].name == n; }
  }

  lemma {:induction false} NoneMistiered(pkgs: seq<Package>, x: Problem)
    ensures !MistieredTo(map[], pkgs, 0, x)
  {
  }

  /** One turn of the second loop. */
  method OneTier(s: Search, pkg: Package)
    requires s.Valid() && s.visiting == [] && pkg.name in s.g
    modifies s
    ensures s.Valid() && s.visiting == [] && old(s.problems) <= s.problems && Extends(old(s.depth), s.depth)
    ensures !HasCycle(s.problems) ==> !HasCycle(old(s.problems)) && pkg.name in s.depth
    ensures !HasCycle(s.problems) ==>
      forall x :: x in s.problems <==> x in old(s.problems) || Mistiered(s.depth, pkg, x)
    ensures forall x :: x in s.problems ==> x in old(s.problems) || x.Cycle? || x.WrongTier?
  {
    ghost var was := s.problems;
    var want := s.Walk(pkg.name);
    ghost var walked := s.problems;
    forall x | x in walked ensures x in was || x.Cycle? {
      var i :| 0 <= i < |walked| && walked[i] == x;
      assert i < |was| ==> was[i] == x;
    }
    if pkg.tier != want { s.problems := s.problems + [WrongTier(pkg.name, want)]; }
    if HasCycle(walked) { MoreCycles(walked, s.problems); }
    if HasCycle(was) { MoreCycles(was, s.problems); }
    if |walked| > |was| { assert walked[|was|].Cycle?; }
  }

  /** What the checker may say of a tree, told from the manifests and the paths between them. */
  ghost predicate Deserved(pkgs: seq<Package>, x: Problem) {
    match x
    case Misplaced(name) => exists i :: 0 <= i < |pkgs| && pkgs[i].name == name && !pkgs[i].home
    case Undeclared(name, dep) =>
      exists i :: 0 <= i < |pkgs| && pkgs[i].name == name && dep in pkgs[i].deps && !Named(pkgs, dep)
    case OutOfOrder(name) => exists i :: 0 <= i < |pkgs| && pkgs[i].name == name && !InOrder(pkgs[i].deps)
    case Cycle(path) => Closed(Tree(pkgs), path)
    case WrongTier(name, want) =>
      exists i :: 0 <= i < |pkgs| && pkgs[i].name == name && pkgs[i].tier != want && Longest(Tree(pkgs), name, want)
  }

  predicate OfManifests(x: Problem) {
    x.Misplaced? || x.Undeclared? || x.OutOfOrder?
  }

  ghost predicate Named(pkgs: seq<Package>, name: string) {
    exists i :: 0 <= i < |pkgs| && pkgs[i].name == name
  }

  lemma {:induction false} EarnedIsDeserved(pkgs: seq<Package>, x: Problem)
    requires Indexed(Tree(pkgs), pkgs)
    ensures EarnedTo(Tree(pkgs), pkgs, |pkgs|, x) <==> OfManifests(x) && Deserved(pkgs, x)
  {
    hide InOrder, Longest, Path;
    var g := Tree(pkgs);
    forall d ensures d in g <==> Named(pkgs, d) {}
    hide Tree, Indexed;
    if EarnedTo(g, pkgs, |pkgs|, x) {
      var i :| 0 <= i < |pkgs| && Earns(g, pkgs[i], x);
      assert pkgs[i].name == pkgs[i].name;
    }
    forall i | 0 <= i < |pkgs| && x.Misplaced? && pkgs[i].name == x.name && !pkgs[i].home
      ensures EarnedTo(g, pkgs, |pkgs|, x) { assert Earns(g, pkgs[i], x); }
    forall i | 0 <= i < |pkgs| && x.OutOfOrder? && pkgs[i].name == x.name && !InOrder(pkgs[i].deps)
      ensures EarnedTo(g, pkgs, |pkgs|, x) { assert Earns(g, pkgs[i], x); }
    forall i | 0 <= i < |pkgs| && x.Undeclared? && pkgs[i].name == x.name && x.dep in pkgs[i].deps
        && !Named(pkgs, x.dep)
      ensures EarnedTo(g, pkgs, |pkgs|, x) { assert Earns(g, pkgs[i], x); }
  }

  lemma {:induction false} MistieredIsDeserved(pkgs: seq<Package>, depth: map<string, nat>, x: Problem)
    requires Indexed(Tree(pkgs), pkgs) && Tree(pkgs).Keys <= depth.Keys
    requires forall n :: n in Tree(pkgs) ==> Longest(Tree(pkgs), n, depth[n])
    ensures MistieredTo(depth, pkgs, |pkgs|, x) <==> x.WrongTier? && Deserved(pkgs, x)
  {
    hide InOrder, Longest, Path, Tree;
    var g := Tree(pkgs);
    if MistieredTo(depth, pkgs, |pkgs|, x) {
      var i :| 0 <= i < |pkgs| && Mistiered(depth, pkgs[i], x);
      assert pkgs[i].name in g;
    }
    if x.WrongTier? && Deserved(pkgs, x) {
      var i :| 0 <= i < |pkgs| && pkgs[i].name == x.name && pkgs[i].tier != x.want && Longest(g, x.name, x.want);
      assert pkgs[i].name in g;
      LongestIsOne(g, x.name, x.want, depth[x.name]);
      assert Mistiered(depth, pkgs[i], x);
    }
  }

  /** Nothing to say of a tree without a cycle means it is sound. */
  lemma {:induction false} SilentIsSound(pkgs: seq<Package>, depth: map<string, nat>, problems: seq<Problem>)
    requires Indexed(Tree(pkgs), pkgs) && (forall p :: !Closed(Tree(pkgs), p))
    requires forall n :: n in Tree(pkgs) ==> n in depth && Longest(Tree(pkgs), n, depth[n])
    requires forall x :: x in problems <==> Deserved(pkgs, x)
    ensures problems == [] <==> Sound(Tree(pkgs), pkgs)
  {
    hide InOrder, Longest, Path, Tree;
    var g := Tree(pkgs);
    forall d ensures d in g <==> Named(pkgs, d) {}
    if problems == [] {
      forall i | 0 <= i < |pkgs| ensures Neat(g, pkgs[i]) && Longest(g, pkgs[i].name, pkgs[i].tier) {
        assert !Deserved(pkgs, Misplaced(pkgs[i].name)) && !Deserved(pkgs, OutOfOrder(pkgs[i].name));
        forall d | d in pkgs[i].deps ensures d in g { assert !Deserved(pkgs, Undeclared(pkgs[i].name, d)); }
        assert !Deserved(pkgs, WrongTier(pkgs[i].name, depth[pkgs[i].name]));
      }
    } else if Sound(g, pkgs) {
      SoundDeservesNothing(pkgs, problems[0]);
    }
  }

  lemma {:induction false} CycleDeserved(pkgs: seq<Package>, problems: seq<Problem>, x: Problem)
    requires RealCycles(Tree(pkgs), problems) && x in problems && x.Cycle?
    ensures Deserved(pkgs, x)
  {
  }

  lemma {:induction false} NoCycleDeserved(pkgs: seq<Package>, x: Problem)
    requires x.Cycle? && forall p :: !Closed(Tree(pkgs), p)
    ensures !Deserved(pkgs, x)
  {
  }

  lemma {:induction false} CycleUnsound(pkgs: seq<Package>, path: seq<string>)
    requires Closed(Tree(pkgs), path)
    ensures !Sound(Tree(pkgs), pkgs)
  {
  }

  lemma {:induction false} SoundDeservesNothing(pkgs: seq<Package>, x: Problem)
    requires Indexed(Tree(pkgs), pkgs) && Sound(Tree(pkgs), pkgs)
    ensures !Deserved(pkgs, x)
  {
    hide InOrder, Path, Tree;
    var g := Tree(pkgs);
    forall d ensures d in g <==> Named(pkgs, d) {}
    if Deserved(pkgs, x) && x.WrongTier? {
      var i :| 0 <= i < |pkgs| && pkgs[i].name == x.name && pkgs[i].tier != x.want && Longest(g, x.name, x.want);
      LongestIsOne(g, x.name, x.want, pkgs[i].tier);
    }
  }

  /**
   `check_graph`: it ends on every tree of distinctly named packages; it reports
   a cycle exactly when there is one, and says of the manifests exactly what
   there is to say.  Without a cycle it also names exactly the packages that are
   not in the tier of their longest path, so that silence means a sound tree.
   */
  method CheckGraph(pkgs: seq<Package>) returns (problems: seq<Problem>)
    requires DistinctlyNamed(pkgs)
    ensures HasCycle(problems) <==> exists p :: Closed(Tree(pkgs), p)
    ensures forall x :: x in problems && !x.WrongTier? ==> Deserved(pkgs, x)
    ensures forall x :: OfManifests(x) && Deserved(pkgs, x) ==> x in problems
    ensures !HasCycle(problems) ==> forall x :: x in problems <==> Deserved(pkgs, x)
    ensures problems == [] <==> Sound(Tree(pkgs), pkgs)
  {
    hide Deserved, EarnedTo, MistieredTo, Sound, Longest, Path, InOrder;
    var g := ByName(pkgs);
    TreeIndexes(pkgs);
    var first := Manifests(g, pkgs);
    forall x ensures x in first <==> OfManifests(x) && Deserved(pkgs, x) { EarnedIsDeserved(pkgs, x); }
    var s := new Search(g, first);
    Tiers(s, pkgs, first);
    problems := s.problems;
    forall x | x in problems && x.Cycle? ensures Deserved(pkgs, x) { CycleDeserved(pkgs, problems, x); }
    if HasCycle(problems) {
      var i :| 0 <= i < |problems| && problems[i].Cycle?;
      assert Closed(g, problems[i].path);
      CycleUnsound(pkgs, problems[i].path);
    } else {
      SettledMeans(g, s.depth);
      forall x ensures MistieredTo(s.depth, pkgs, |pkgs|, x) <==> x.WrongTier? && Deserved(pkgs, x) {
        MistieredIsDeserved(pkgs, s.depth, x);
      }
      forall x: Problem | x.Cycle? ensures !Deserved(pkgs, x) { NoCycleDeserved(pkgs, x); }
      SilentIsSound(pkgs, s.depth, problems);
    }
  }

  /** In a tree it accepts, every package is in a tier strictly above its dependencies'. */
  lemma {:induction false} TiersDescend(pkgs: seq<Package>, a: string, b: string)
    requires DistinctlyNamed(pkgs) && Sound(Tree(pkgs), pkgs) && Edge(Tree(pkgs), a, b)
    ensures Tree(pkgs)[a].tier > Tree(pkgs)[b].tier >= 0
  {
    var g := Tree(pkgs);
    TreeIndexes(pkgs);
    var i :| 0 <= i < |pkgs| && pkgs[i].name == a;
    var j :| 0 <= j < |pkgs| && pkgs[j].name == b;
    LongerByOne(g, a, b, g[a].tier, g[b].tier);
  }

  /** A package's longest path is longer than any of its dependencies'. */
  lemma {:induction false} LongerByOne(g: Index, a: string, b: string, j: int, k: int)
    requires Edge(g, a, b) && Longest(g, a, j) && Longest(g, b, k)
    ensures j > k >= 0
  {
    var p :| Path(g, p) && p[0] == b && |p| - 1 == k;
    var q := [a] + p;
    forall i | 0 < i < |q| ensures Edge(g, q[i - 1], q[i]) { if i > 1 { assert Edge(g, p[i - 2], p[i - 1]); } }
    assert Path(g, q) && q[0] == a;
  }
}
