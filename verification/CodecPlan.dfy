/**
 The planner: `plan` of `plan.py`.  Structs that asked for a codec are planned
 one by one, and then every plan that holds a refused struct is refused, until
 nothing more falls out.  The loop finds a nested struct by its bare name; what
 it computes is stated by path.
 */
module CodecPlan {
  import opened Common
  import opened JsonModel
  import opened CodecTags
  import opened CodecStruct

  // --- paths and names -----------------------------------------------------------

  function Paths(asked: seq<Struct>): set<string> {
    set i | 0 <= i < |asked| :: PathOf(asked[i])
  }

  /** The part of a path after its last dot: Python's `rsplit(".", 1)[-1]`. */
  function LastPart(path: string): string {
    if path == [] then []
    else if path[|path| - 1] == '.' then []
    else LastPart(path[..|path| - 1]) + [path[|path| - 1]]
  }

  lemma {:induction false} LastPartIsName(prefix: string, name: string)
    requires '.' !in name
    ensures LastPart(prefix + "." + name) == name
  {
    var path := prefix + "." + name;
    if name == [] {
      assert path[|path| - 1] == '.';
    } else {
      var init := name[..|name| - 1];
      LastPartIsName(prefix, init);
      assert path[..|path| - 1] == prefix + "." + init;
    }
  }

  /** What a package is: one struct per path, no dots in names, one field per name. */
  ghost predicate Sensible(w: Index) {
    && (forall i, j :: 0 <= i < j < |w.asked| ==> PathOf(w.asked[i]) != PathOf(w.asked[j]))
    && (forall i :: 0 <= i < |w.asked| ==> '.' !in w.asked[i].name)
    && (forall q :: q in w.resolve ==> '.' !in w.resolve[q].name)
    && (forall i, j, k :: 0 <= i < |w.asked| && 0 <= j < k < |w.asked[i].fields| ==>
          w.asked[i].fields[j].name != w.asked[i].fields[k].name)
  }

  /** Another struct that asked has this one's name. */
  predicate Twinned(asked: seq<Struct>, s: Struct) {
    exists i :: 0 <= i < |asked| && asked[i].name == s.name && PathOf(asked[i]) != PathOf(s)
  }

  /** `nested_path`: the first asked struct of that name, or the name itself. */
  function NestedPath(asked: seq<Struct>, spell: string): string {
    if asked == [] then spell
    else if LastPart(PathOf(asked[0])) == spell then PathOf(asked[0])
    else NestedPath(asked[1..], spell)
  }

  // --- what survives, by path ------------------------------------------------------

  ghost predicate Planned(w: Index, s: Struct) {
    !Twinned(w.asked, s) && Plannable(w, Paths(w.asked), s)
  }

  function CodecFor(w: Index, s: Struct): Codec {
    Codec(s.name, MembersOf(w, Paths(w.asked), s.fields))
  }

  /** A codec says what the struct's fields say, one member to a field. */
  ghost predicate CodecSays(w: Index, s: Struct, c: Codec) {
    && c.name == s.name && |c.members| == |s.fields|
    && forall j :: 0 <= j < |s.fields| ==> Becomes(w, s.fields[j], c.members[j])
  }

  /** A struct is planned by itself when `one` takes it and no other that asked has its name. */
  lemma {:induction false} PlannedExactly(w: Index, s: Struct)
    ensures Planned(w, s) <==>
      && (forall i :: 0 <= i < |w.asked| && w.asked[i].name == s.name ==> PathOf(w.asked[i]) == PathOf(s))
      && Takes(w, Paths(w.asked), s)
    ensures Planned(w, s) ==> CodecSays(w, s, CodecFor(w, s))
  {
    hide Plannable, Takes, Becomes;
    PlannableExactly(w, Paths(w.asked), s);
  }

  /** The paths of the structs that a struct's encoded fields lead to. */
  function Leads(w: Index, s: Struct): set<string> {
    set i, q | 0 <= i < |s.fields| && !TagOf(s.fields[i]).skip && q in LeadsTo(s.fields[i].ty, w.resolve) :: q
  }

  /** A set of paths that can all have codecs: each is planned, and leads only into the set. */
  ghost predicate Supported(w: Index, paths: set<string>) {
    && paths <= Paths(w.asked)
    && forall i :: 0 <= i < |w.asked| && PathOf(w.asked[i]) in paths ==>
         Planned(w, w.asked[i]) && Leads(w, w.asked[i]) <= paths
  }

  /** The paths some supported set contains. */
  ghost function Survivors(w: Index): set<string> {
    set q | q in Paths(w.asked) && exists paths :: Supported(w, paths) && q in paths
  }

  /** The survivors are themselves supported, so they are the largest set that is. */
  lemma {:induction false} SurvivorsGreatest(w: Index)
    ensures Supported(w, Survivors(w))
    ensures forall paths :: Supported(w, paths) ==> paths <= Survivors(w)
  {
    var all := Survivors(w);
    forall i | 0 <= i < |w.asked| && PathOf(w.asked[i]) in all
      ensures Planned(w, w.asked[i]) && Leads(w, w.asked[i]) <= all
    {
      var paths :| Supported(w, paths) && PathOf(w.asked[i]) in paths;
      assert Leads(w, w.asked[i]) <= paths <= all;
    }
  }

  // --- names find what paths find ---------------------------------------------------

  /** A type that was accepted leads to one asked struct, and its encoding names that one, or to none. */
  lemma {:induction false} OneStruct(ref: TypeRef, resolve: map<string, Struct>, known: set<string>)
    requires EncodingOf(ref, resolve, known).Some?
    ensures var e := EncodingOf(ref, resolve, known).value;
      || (StructsIn(e) == {} && LeadsTo(ref, resolve) == {})
      || exists q :: q in resolve && PathOf(resolve[q]) in known
           && StructsIn(e) == {resolve[q].name} && LeadsTo(ref, resolve) == {PathOf(resolve[q])}
    decreases ref
  {
    if ScalarFor(ref).Some? {
    } else if (ref.name == "Optional" || ref.name == "List") && |ref.args| == 1 {
      OneStruct(ref.args[0], resolve, known);
    } else if ref.name == "Dict" && |ref.args| == 2 {
      OneStruct(ref.args[1], resolve, known);
    }
  }

  /** The names a codec's members use. */
  function NamesUsed(c: Codec): set<string> {
    set i, n | 0 <= i < |c.members| && c.members[i].Field? && n in StructsIn(c.members[i].encoding) :: n
  }

  /** A name that a planned codec uses is the name of an asked struct it leads to. */
  lemma {:induction false} NameLeads(w: Index, s: Struct, n: string) returns (t: Struct)
    requires Sensible(w) && Planned(w, s) && n in NamesUsed(CodecFor(w, s))
    ensures t in w.asked && t.name == n && PathOf(t) in Leads(w, s)
  {
    var known := Paths(w.asked);
    var ms := CodecFor(w, s).members;
    MembersAre(w, known, s.fields);
    var i :| 0 <= i < |ms| && ms[i].Field? && n in StructsIn(ms[i].encoding);
    assert MemberOf(w, known, s.fields[i]) == Some(ms[i]);
    OneStruct(s.fields[i].ty, w.resolve, known);
    var q :| q in w.resolve && PathOf(w.resolve[q]) in known && n == w.resolve[q].name
      && LeadsTo(s.fields[i].ty, w.resolve) == {PathOf(w.resolve[q])};
    t := AskedAt(w, PathOf(w.resolve[q]));
    LastPartIsName(t.module_, t.name);
    LastPartIsName(w.resolve[q].module_, n);
  }

  /** And the other way round: a path it leads to is an asked struct whose name it uses. */
  lemma {:induction false} LeadNames(w: Index, s: Struct, path: string) returns (t: Struct)
    requires Sensible(w) && Planned(w, s) && path in Leads(w, s)
    ensures t in w.asked && PathOf(t) == path && t.name in NamesUsed(CodecFor(w, s))
  {
    var known := Paths(w.asked);
    var ms := CodecFor(w, s).members;
    MembersAre(w, known, s.fields);
    var i :| 0 <= i < |s.fields| && !TagOf(s.fields[i]).skip && path in LeadsTo(s.fields[i].ty, w.resolve);
    assert MemberOf(w, known, s.fields[i]) == Some(ms[i]);
    OneStruct(s.fields[i].ty, w.resolve, known);
    var q :| q in w.resolve && PathOf(w.resolve[q]) in known && StructsIn(ms[i].encoding) == {w.resolve[q].name}
      && path == PathOf(w.resolve[q]);
    t := AskedAt(w, path);
    LastPartIsName(t.module_, t.name);
    LastPartIsName(w.resolve[q].module_, w.resolve[q].name);
    assert t.name in StructsIn(ms[i].encoding);
  }

  lemma {:induction false} AskedAt(w: Index, path: string) returns (t: Struct)
    requires path in Paths(w.asked)
    ensures t in w.asked && PathOf(t) == path
  {
    var i :| 0 <= i < |w.asked| && PathOf(w.asked[i]) == path;
    t := w.asked[i];
  }

  /** The search by name finds some asked struct of that name. */
  lemma {:induction false} NestedFinds(asked: seq<Struct>, t: Struct) returns (u: Struct)
    requires t in asked && forall i :: 0 <= i < |asked| ==> '.' !in asked[i].name
    ensures u in asked && u.name == t.name && NestedPath(asked, t.name) == PathOf(u)
  {
    LastPartIsName(asked[0].module_, asked[0].name);
    if asked[0].name == t.name {
      u := asked[0];
    } else {
      assert t in asked[1..];
      u := NestedFinds(asked[1..], t);
    }
  }

  // --- the state of the loop --------------------------------------------------------

  type Known = map<string, Option<Codec>>

  predicate Alive(known: Known, path: string) {
    path in known && known[path].Some?
  }

  function Living(known: Known): set<string> {
    set q | q in known && Alive(known, q)
  }

  /** The loop's test: a struct this codec names has no codec of its own. */
  predicate Loses(asked: seq<Struct>, known: Known, c: Codec) {
    exists n :: n in NamesUsed(c) && !Alive(known, NestedPath(asked, n))
  }

  /** What holds between rounds: whoever has a codec was planned, and has the codec planned for it. */
  ghost predicate Coherent(w: Index, known: Known) {
    && known.Keys == Paths(w.asked)
    && forall i :: 0 <= i < |w.asked| && Alive(known, PathOf(w.asked[i])) ==>
         Planned(w, w.asked[i]) && known[PathOf(w.asked[i])] == Some(CodecFor(w, w.asked[i]))
  }

  /** Looking a struct up by its name or by its path gives the same answer, twins and all. */
  lemma {:induction false} NameOrPath(w: Index, known: Known, t: Struct)
    requires Sensible(w) && Coherent(w, known) && t in w.asked
    ensures Alive(known, NestedPath(w.asked, t.name)) <==> Alive(known, PathOf(t))
  {
    var u := NestedFinds(w.asked, t);
    if PathOf(u) != PathOf(t) {
      assert Twinned(w.asked, u) && Twinned(w.asked, t);
      assert !Planned(w, u) && !Planned(w, t);
    }
  }

  lemma {:induction false} LosesByPath(w: Index, known: Known, s: Struct)
    requires Sensible(w) && Coherent(w, known) && Planned(w, s)
    ensures Loses(w.asked, known, CodecFor(w, s)) <==> !(Leads(w, s) <= Living(known))
  {
    var c := CodecFor(w, s);
    if Loses(w.asked, known, c) {
      var n :| n in NamesUsed(c) && !Alive(known, NestedPath(w.asked, n));
      var t := NameLeads(w, s, n);
      NameOrPath(w, known, t);
      assert PathOf(t) !in Living(known);
    }
    if !(Leads(w, s) <= Living(known)) {
      var path :| path in Leads(w, s) && path !in Living(known);
      var t := LeadNames(w, s, path);
      NameOrPath(w, known, t);
      assert t.name in NamesUsed(c) && !Alive(known, NestedPath(w.asked, t.name));
    }
  }

  // --- the loop -----------------------------------------------------------------------

  /** The asked structs whose codec holds one that is not there, in order. */
  method Gone(asked: seq<Struct>, known: Known) returns (gone: seq<string>)
    requires known.Keys == Paths(asked)
    ensures forall q :: q in gone <==>
      exists i :: 0 <= i < |asked| && q == PathOf(asked[i]) && Alive(known, q) && Loses(asked, known, known[q].value)
  {
    gone := [];
    for i := 0 to |asked|
      invariant forall q :: q in gone <==>
        exists j :: 0 <= j < i && q == PathOf(asked[j]) && Alive(known, q) && Loses(asked, known, known[q].value)
    {
      var path := PathOf(asked[i]);
      if known[path].Some? && Loses(asked, known, known[path].value) { gone := gone + [path]; }
    }
  }

  method Refuse(known: Known, gone: seq<string>) returns (after: Known)
    requires forall q :: q in gone ==> q in known
    ensures after.Keys == known.Keys
    ensures forall q :: q in known ==> after[q] == if q in gone then None else known[q]
  {
    after := known;
    for i := 0 to |gone|
      invariant after.Keys == known.Keys
      invariant forall q :: q in known ==> after[q] == if q in gone[..i] then None else known[q]
    {
      after := after[gone[i] := None];
    }
    assert gone[..|gone|] == gone;
  }

  /** A round refuses nobody that a supported set contains. */
  lemma {:induction false} RoundKeeps(w: Index, known: Known, next: Known, gone: seq<string>)
    requires Sensible(w) && Coherent(w, known) && Survivors(w) <= Living(known)
    requires forall q :: q in gone <==>
      exists i :: 0 <= i < |w.asked| && q == PathOf(w.asked[i]) && Alive(known, q)
        && Loses(w.asked, known, known[q].value)
    requires next.Keys == known.Keys
    requires forall q :: q in known ==> next[q] == if q in gone then None else known[q]
    ensures Coherent(w, next) && Survivors(w) <= Living(next)
    ensures Living(next) <= Living(known) && (gone != [] ==> Living(next) < Living(known))
  {
    hide Leads, Planned, CodecFor, Loses;
    SurvivorsGreatest(w);
    forall q | q in Survivors(w) ensures q in Living(next) {
      var t := AskedAt(w, q);
      assert Leads(w, t) <= Living(known);
      LosesByPath(w, known, t);
      assert q !in gone;
    }
    if gone != [] {
      assert gone[0] in gone;
      assert gone[0] in Living(known) && gone[0] !in Living(next);
    }
  }

  /** When nobody falls out, those left support each other. */
  lemma {:induction false} QuietIsSupported(w: Index, known: Known)
    requires Sensible(w) && Coherent(w, known)
    requires forall i :: 0 <= i < |w.asked| && Alive(known, PathOf(w.asked[i])) ==>
      !Loses(w.asked, known, known[PathOf(w.asked[i])].value)
    ensures Supported(w, Living(known))
  {
    forall i | 0 <= i < |w.asked| && PathOf(w.asked[i]) in Living(known)
      ensures Planned(w, w.asked[i]) && Leads(w, w.asked[i]) <= Living(known)
    {
      LosesByPath(w, known, w.asked[i]);
    }
  }

  /** The removal loop of `plan`: it ends, and leaves exactly the survivors. */
  method Removal(w: Index, start: Known) returns (known: Known)
    requires Sensible(w) && Coherent(w, start) && Survivors(w) <= Living(start)
    ensures Coherent(w, known) && Living(known) == Survivors(w)
  {
    known := start;
    while true
      invariant Coherent(w, known) && Survivors(w) <= Living(known)
      decreases Living(known)
    {
      var gone := Gone(w.asked, known);
      if gone == [] {
        QuietIsSupported(w, known);
        SurvivorsGreatest(w);
        return;
      }
      var next := Refuse(known, gone);
      RoundKeeps(w, known, next, gone);
      known := next;
    }
  }

  // --- the two passes -----------------------------------------------------------------

  /** What the second pass says of a struct, before anybody is removed. */
  ghost function FirstPlan(w: Index, s: Struct): Option<Codec> {
    if Planned(w, s) then Some(CodecFor(w, s)) else None
  }

  /** The second pass has got to struct `i`. */
  ghost predicate PlannedTo(w: Index, known: Known, i: nat) {
    && known.Keys == Paths(w.asked)
    && forall j :: 0 <= j < |w.asked| ==>
         known[PathOf(w.asked[j])] == if j < i then FirstPlan(w, w.asked[j]) else None
  }

  lemma {:induction false} PlannedNext(w: Index, known: Known, i: nat, next: Known)
    requires Sensible(w) && i < |w.asked| && PlannedTo(w, known, i)
    requires next == known[PathOf(w.asked[i]) := FirstPlan(w, w.asked[i])]
    ensures PlannedTo(w, next, i + 1)
  {
    forall j | 0 <= j < |w.asked|
      ensures next[PathOf(w.asked[j])] == if j < i + 1 then FirstPlan(w, w.asked[j]) else None
    {
      if j < i {
        assert PathOf(w.asked[j]) != PathOf(w.asked[i]);
      } else if j > i {
        assert PathOf(w.asked[i]) != PathOf(w.asked[j]);
      }
    }
  }

  /** The second pass: one codec per struct that has no twin and no problem. */
  method FirstPlans(order: set<string> -> seq<string>, w: Index) returns (known: Known)
    requires Sensible(w)
    requires forall x: set<string> :: Distinct(order(x)) && forall y :: y in order(x) <==> y in x
    ensures PlannedTo(w, known, |w.asked|)
  {
    known := map q | q in Paths(w.asked) :: None;
    for i := 0 to |w.asked|
      invariant PlannedTo(w, known, i)
    {
      var r := PlanOne(order, w, w.asked[i]);
      PlannedNext(w, known, i, known[PathOf(w.asked[i]) := r]);
      known := known[PathOf(w.asked[i]) := r];
    }
  }

  method PlanOne(order: set<string> -> seq<string>, w: Index, s: Struct) returns (r: Option<Codec>)
    requires forall x: set<string> :: Distinct(order(x)) && forall y :: y in order(x) <==> y in x
    ensures r == FirstPlan(w, s)
  {
    if Twinned(w.asked, s) { return None; }
    r := One(order, w, Paths(w.asked), s);
  }

  /** The codecs of the structs in `paths`, in the order they asked. */
  function CodecsIn(w: Index, asked: seq<Struct>, paths: set<string>): seq<Codec> {
    if asked == [] then []
    else
      CodecsIn(w, asked[..|asked| - 1], paths)
      + (var s := asked[|asked| - 1]; if PathOf(s) in paths then [CodecFor(w, s)] else [])
  }

  /** The paths that `paths` leaves out, in the order they asked. */
  function RefusedIn(asked: seq<Struct>, paths: set<string>): seq<string> {
    if asked == [] then []
    else
      RefusedIn(asked[..|asked| - 1], paths)
      + (var s := asked[|asked| - 1]; if PathOf(s) in paths then [] else [PathOf(s)])
  }

  /** Which of the structs that asked are in `paths`, or which are not, in the order they asked. */
  ghost function Which(asked: seq<Struct>, paths: set<string>, kept: bool): (at: seq<nat>)
    ensures forall i, j :: 0 <= i < j < |at| ==> at[i] < at[j]
    ensures forall i :: 0 <= i < |at| ==> at[i] < |asked|
    ensures forall k :: 0 <= k < |asked| ==> (k in at <==> (PathOf(asked[k]) in paths <==> kept))
  {
    if asked == [] then []
    else
      var last := |asked| - 1;
      var before := Which(asked[..last], paths, kept);
      if PathOf(asked[last]) in paths <==> kept then before + [last] else before
  }

  lemma {:induction false} RefusedInOrder(asked: seq<Struct>, paths: set<string>)
    ensures var at := Which(asked, paths, false);
      |RefusedIn(asked, paths)| == |at|
      && forall i :: 0 <= i < |at| ==> RefusedIn(asked, paths)[i] == PathOf(asked[at[i]])
  {
    hide PathOf;
    if asked != [] { RefusedInOrder(asked[..|asked| - 1], paths); }
  }

  lemma {:induction false} CodecsInOrder(w: Index, asked: seq<Struct>, paths: set<string>)
    ensures var at := Which(asked, paths, true);
      |CodecsIn(w, asked, paths)| == |at|
      && forall i :: 0 <= i < |at| ==> CodecsIn(w, asked, paths)[i] == CodecFor(w, asked[at[i]])
  {
    hide PathOf, CodecFor;
    if asked != [] { CodecsInOrder(w, asked[..|asked| - 1], paths); }
  }

  /** `plan`: the codecs of the largest supported set, and a refusal for every other struct that asked. */
  method Plan(order: set<string> -> seq<string>, w: Index) returns (codecs: seq<Codec>, refused: seq<string>)
    requires Sensible(w)
    requires forall x: set<string> :: Distinct(order(x)) && forall y :: y in order(x) <==> y in x
    ensures codecs == CodecsIn(w, w.asked, Survivors(w))
    ensures var at := Which(w.asked, Survivors(w), true);
      |codecs| == |at| && forall i :: 0 <= i < |at| ==> CodecSays(w, w.asked[at[i]], codecs[i])
    ensures var at := Which(w.asked, Survivors(w), false);
      |refused| == |at| && forall i :: 0 <= i < |at| ==> refused[i] == PathOf(w.asked[at[i]])
  {
    hide Survivors, CodecFor, CodecSays, PathOf, CodecsIn, RefusedIn, Coherent;
    var known := FirstPlans(order, w);
    StartKeeps(w, known);
    known := Removal(w, known);
    codecs, refused := Listing(w, known);
    RefusedInOrder(w.asked, Survivors(w));
    CodecsInOrder(w, w.asked, Survivors(w));
    CodecsSay(w);
  }

  /** The last loop: what is alive is a codec of the plan, and what is not is refused. */
  method Listing(w: Index, known: Known) returns (codecs: seq<Codec>, refused: seq<string>)
    requires Sensible(w) && Coherent(w, known)
    ensures codecs == CodecsIn(w, w.asked, Living(known)) && refused == RefusedIn(w.asked, Living(known))
  {
    hide CodecFor, Planned, Sensible;
    codecs, refused := [], [];
    for i := 0 to |w.asked|
      invariant codecs == CodecsIn(w, w.asked[..i], Living(known))
      invariant refused == RefusedIn(w.asked[..i], Living(known))
    {
      assert w.asked[..i + 1][..i] == w.asked[..i];
      var path := PathOf(w.asked[i]);
      if known[path].None? {
        assert path !in Living(known);
        refused := refused + [path];
      } else {
        assert path in Living(known);
        codecs := codecs + [known[path].value];
      }
    }
    assert w.asked[..|w.asked|] == w.asked;
  }

  /** The codec of a survivor says what its struct says. */
  lemma {:induction false} CodecsSay(w: Index)
    ensures forall i :: 0 <= i < |w.asked| && PathOf(w.asked[i]) in Survivors(w) ==>
      CodecSays(w, w.asked[i], CodecFor(w, w.asked[i]))
  {
    hide Survivors, CodecSays, CodecFor, PathOf;
    SurvivorsGreatest(w);
    forall i | 0 <= i < |w.asked| && PathOf(w.asked[i]) in Survivors(w)
      ensures CodecSays(w, w.asked[i], CodecFor(w, w.asked[i]))
    {
      PlannedExactly(w, w.asked[i]);
    }
  }

  lemma {:induction false} StartKeeps(w: Index, known: Known)
    requires Sensible(w) && PlannedTo(w, known, |w.asked|)
    ensures Coherent(w, known) && Survivors(w) <= Living(known)
  {
    SurvivorsGreatest(w);
    forall q | q in Survivors(w) ensures q in Living(known) {
      var t := AskedAt(w, q);
      assert Planned(w, t);
    }
  }

  // --- what the plan promises the emitter ----------------------------------------------

  /** The codecs of a plan by the names of their structs. */
  function Table(codecs: seq<Codec>): Codecs {
    if codecs == [] then map[] else Table(codecs[..|codecs| - 1])[codecs[|codecs| - 1].name := codecs[|codecs| - 1]]
  }

  /** A codec is that of an asked struct whose path is among `paths`. */
  ghost predicate CodecOf(w: Index, asked: seq<Struct>, paths: set<string>, c: Codec) {
    exists i :: 0 <= i < |asked| && PathOf(asked[i]) in paths && c == CodecFor(w, asked[i])
  }

  lemma {:induction false} CodecOfLast(w: Index, asked: seq<Struct>, paths: set<string>, c: Codec)
    requires asked != []
    ensures var init, s := asked[..|asked| - 1], asked[|asked| - 1];
      CodecOf(w, asked, paths, c) <==> CodecOf(w, init, paths, c) || (PathOf(s) in paths && c == CodecFor(w, s))
  {
    hide PathOf, CodecFor;
    var init := asked[..|asked| - 1];
    if i :| 0 <= i < |asked| && PathOf(asked[i]) in paths && c == CodecFor(w, asked[i]) {
      if i < |init| { assert init[i] == asked[i]; }
    }
    if i :| 0 <= i < |init| && PathOf(init[i]) in paths && c == CodecFor(w, init[i]) { assert asked[i] == init[i]; }
  }

  lemma {:induction false} CodecsAre(w: Index, asked: seq<Struct>, paths: set<string>)
    ensures forall c :: c in CodecsIn(w, asked, paths) <==> CodecOf(w, asked, paths, c)
  {
    hide PathOf, CodecFor;
    if asked != [] {
      CodecsAre(w, asked[..|asked| - 1], paths);
      forall c ensures c in CodecsIn(w, asked, paths)
        <==> CodecOf(w, asked, paths, c) { CodecOfLast(w, asked, paths, c); }
    }
  }

  lemma {:induction false} TableOf(codecs: seq<Codec>)
    ensures forall n :: n in Table(codecs) ==> Table(codecs)[n] in codecs && Table(codecs)[n].name == n
    ensures forall c :: c in codecs ==> c.name in Table(codecs)
  {
    if codecs != [] {
      var init, last := codecs[..|codecs| - 1], codecs[|codecs| - 1];
      TableOf(init);
      forall c | c in codecs ensures c.name in Table(codecs) {
        if c != last { assert c in init; }
      }
    }
  }

  lemma {:induction false} PlannedIsSound(w: Index, s: Struct)
    requires Sensible(w) && s in w.asked && Planned(w, s)
    ensures SoundCodec(CodecFor(w, s))
  {
    var known := Paths(w.asked);
    var ms := CodecFor(w, s).members;
    MembersAre(w, known, s.fields);
    forall i | 0 <= i < |ms|
      ensures ms[i].name == s.fields[i].name && (ms[i].Field? && ms[i].omitempty ==> Absent(ms[i].encoding))
    {
      assert MemberOf(w, known, s.fields[i]) == Some(ms[i]);
    }
    forall i, j | 0 <= i < j < |ms| && ms[i].Field? && ms[j].Field? ensures ms[i].json != ms[j].json {
      UniqueJson(ms, i, j);
    }
  }

  /** Only one surviving struct has a given name. */
  lemma {:induction false} OneOfName(w: Index, i: nat, j: nat)
    requires i < |w.asked| && j < |w.asked| && w.asked[i].name == w.asked[j].name && PathOf(w.asked[i]) in Survivors(w)
    ensures PathOf(w.asked[j]) == PathOf(w.asked[i])
  {
    hide Survivors, Plannable, Leads, PathOf;
    SurvivorsGreatest(w);
    assert !Twinned(w.asked, w.asked[i]);
  }

  lemma {:induction false} TableAt(w: Index, i: nat)
    requires Sensible(w) && i < |w.asked| && PathOf(w.asked[i]) in Survivors(w)
    ensures var p := Table(CodecsIn(w, w.asked, Survivors(w)));
      w.asked[i].name in p && p[w.asked[i].name] == CodecFor(w, w.asked[i])
  {
    hide Survivors, Table, CodecsIn, PathOf, MembersOf;
    var codecs := CodecsIn(w, w.asked, Survivors(w));
    var p := Table(codecs);
    CodecsAre(w, w.asked, Survivors(w));
    TableOf(codecs);
    var s := w.asked[i];
    assert CodecFor(w, s) in codecs;
    var j :| 0 <= j < |w.asked| && PathOf(w.asked[j]) in Survivors(w) && p[s.name] == CodecFor(w, w.asked[j]);
    OneOfName(w, i, j);
  }

  /** The table a plan hands to the emitter: one codec per surviving struct, under its own name. */
  lemma {:induction false} PlanTable(w: Index)
    requires Sensible(w)
    ensures var p := Table(CodecsIn(w, w.asked, Survivors(w)));
      forall i :: 0 <= i < |w.asked| && PathOf(w.asked[i]) in Survivors(w) ==>
        w.asked[i].name in p && p[w.asked[i].name] == CodecFor(w, w.asked[i])
  {
    hide Survivors, Table, CodecsIn, PathOf, Sensible;
    forall i | 0 <= i < |w.asked| && PathOf(w.asked[i]) in Survivors(w)
      ensures var p := Table(CodecsIn(w, w.asked, Survivors(w)));
        w.asked[i].name in p && p[w.asked[i].name] == CodecFor(w, w.asked[i])
    {
      TableAt(w, i);
    }
  }

  /** A codec of the plan is that of a surviving struct. */
  lemma {:induction false} WhoseCodec(w: Index, n: string) returns (s: Struct)
    requires n in Table(CodecsIn(w, w.asked, Survivors(w)))
    ensures s in w.asked && PathOf(s) in Survivors(w)
    ensures Table(CodecsIn(w, w.asked, Survivors(w)))[n] == CodecFor(w, s) && s.name == n
  {
    var codecs := CodecsIn(w, w.asked, Survivors(w));
    TableOf(codecs);
    CodecsAre(w, w.asked, Survivors(w));
    var i :| 0 <= i < |w.asked| && PathOf(w.asked[i]) in Survivors(w) && Table(codecs)[n] == CodecFor(w, w.asked[i]);
    s := w.asked[i];
  }

  /** A surviving struct uses only names the table has. */
  lemma {:induction false} NamesAreThere(w: Index, s: Struct)
    requires Sensible(w) && s in w.asked && PathOf(s) in Survivors(w)
    ensures NamesUsed(CodecFor(w, s)) <= Table(CodecsIn(w, w.asked, Survivors(w))).Keys
  {
    SurvivorsGreatest(w);
    PlanTable(w);
    forall m | m in NamesUsed(CodecFor(w, s)) ensures m in Table(CodecsIn(w, w.asked, Survivors(w))) {
      var t := NameLeads(w, s, m);
      assert PathOf(t) in Survivors(w);
    }
  }

  /** Every plan is one the emitter's theorems are about. */
  lemma {:induction false} PlanIsAccepted(w: Index)
    requires Sensible(w)
    ensures Accepted(Table(CodecsIn(w, w.asked, Survivors(w))))
  {
    var p := Table(CodecsIn(w, w.asked, Survivors(w)));
    forall n | n in p ensures p[n].name == n && SoundCodec(p[n]) && NamesUsed(p[n]) <= p.Keys {
      var s := WhoseCodec(w, n);
      SurvivorsGreatest(w);
      PlannedIsSound(w, s);
      NamesAreThere(w, s);
    }
    forall n, i | n in p && 0 <= i < |p[n].members| && p[n].members[i].Field?
      ensures StructsIn(p[n].members[i].encoding) <= p.Keys
    {
      assert StructsIn(p[n].members[i].encoding) <= NamesUsed(p[n]);
    }
  }
}
