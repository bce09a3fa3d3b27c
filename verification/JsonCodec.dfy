/**
 The generated file as a whole: what its encoders write, its decoders read.
 */
module JsonCodec {
  import opened Common
  import opened JsonModel
  import opened JsonText
  import opened JsonRoundTrip
  import opened JsonIdentity
  import opened CodecNames
  import opened EmitBody
  import E = EmitEncoder
  import EL = EncoderLines
  import ET = EncoderText
  import ER = EncoderRuns
  import D = EmitDecoder
  import DL = DecoderLines
  import DT = DecoderText
  import DR = DecoderRuns
  import F = CodecFile
  import Links = DecoderLinks
  import P = CodecPlan
  import CS = CodecStruct

  // --- statements --------------------------------------------------------------------

  /** Running the emitted decoder on what the emitted encoder wrote. */
  function Cycle(p: Codecs, strict: bool, order: E.Order, fuel: nat, n: string, v: Value): Outcome<Value>
    requires D.Apart(p)
  {
    match ER.Marshal(p, order, fuel, n, v)
    case Failed(err) => Failed(err)
    case Ok(toks) => DR.RunUnmarshal(p, strict, fuel, n, toks)
  }

  /**
   For every accepted plan whose decoders go together and every value of a
   decodable struct in it: the emitted encoder and the emitted decoder both end,
   and give the value back exactly when nothing in it collapses and it is not
   nested past the cap.  Otherwise they give back its normal form, or refuse the
   depth.
   */
  lemma {:induction false} CycleExactly(p: Codecs, strict: bool, order: E.Order, fuel: nat, n: string, v: Value)
    requires Accepted(p) && Linked(p) && D.Apart(p) && n in p && Decodable(p[n]) && HasType(p, EStruct(n), v)
    requires E.Enumerates(order) && fuel >= 2 * |Print(p, EStruct(n), v)| + 2
    ensures Cycle(p, strict, order, fuel, n, v) ==
      if Deepest(p, EStruct(n), v, 0) <= MAX_NESTING_DEPTH then Ok(Norm(p, EStruct(n), v)) else Failed(TooDeep)
    ensures Cycle(p, strict, order, fuel, n, v) == Ok(v)
      <==> Canonical(p, EStruct(n), v) && Deepest(p, EStruct(n), v, 0) <= MAX_NESTING_DEPTH
  {
    hide Print, Deepest, Norm, Canonical, HasType, Accepted, Linked;
    var toks := Print(p, EStruct(n), v);
    SoundTable(p);
    ER.MarshalPrints(p, order, fuel, n, v);
    DR.UnmarshalRuns(p, strict, fuel, n, toks);
    UnmarshalPrint(p, strict, n, v);
    RoundTripIff(p, strict, n, v);
  }

  lemma {:induction false} SoundTable(p: Codecs)
    requires Accepted(p) && D.Apart(p)
    ensures DR.Sound(p)
  {
  }

  // --- the lines of the file ------------------------------------------------------------

  /** A plan's codecs in order, and the same by name. */
  ghost predicate Tabled(p: Codecs, codecs: seq<Codec>) {
    && F.DistinctCodecs(codecs)
    && (forall i :: 0 <= i < |codecs| ==> codecs[i].name in p && p[codecs[i].name] == codecs[i])
    && (forall n :: n in p ==> p[n].name == n && p[n] in codecs)
  }

  lemma {:induction false} ApartAlike(p: Codecs, codecs: seq<Codec>)
    requires Tabled(p, codecs)
    ensures F.ApartIn(codecs) <==> D.Apart(p)
  {
    hide Snake;
    if F.ApartIn(codecs) {
      forall a, b | a in p && b in p && Decodable(p[a]) && Decodable(p[b]) && Snake(a) == Snake(b) ensures a == b {
        var i :| 0 <= i < |codecs| && codecs[i] == p[a];
        var j :| 0 <= j < |codecs| && codecs[j] == p[b];
      }
    }
  }

  lemma {:induction false} EncodersLaidOut(p: Codecs, codecs: seq<Codec>)
    requires Tabled(p, codecs)
    ensures var r := F.LoadEncoders(Nest(Layout(F.EncoderDefs(codecs), 0), 0));
      r.Some? && ET.LaidOut(E.Encoders(p), r.value)
  {
    hide E.EncoderBody, EL.Outline, E.EncoderOf, E.Encoders, F.LoadEncoders, F.EncoderDefs, Nest, Layout, ET.LaidOut;
    NestLayout(F.EncoderDefs(codecs), 0);
    F.EncodersLoad(codecs);
    WritersAlike(p, codecs, F.LoadEncoders(F.EncoderDefs(codecs)).value);
  }

  /** The file's encoders are the plan's, overload by overload. */
  lemma {:induction false} WritersAlike(p: Codecs, codecs: seq<Codec>, src: ET.Source)
    requires Tabled(p, codecs)
    requires forall f :: f in src <==> exists i :: 0 <= i < |codecs| && f == E.EncoderOf(codecs[i].name)
    requires forall i :: 0 <= i < |codecs| ==> src[E.EncoderOf(codecs[i].name)] == EL.Outline(E.EncoderBody(codecs[i]))
    ensures ET.LaidOut(E.Encoders(p), src)
  {
    hide E.EncoderBody, EL.Outline, EL.Solid, Snake;
    var prog := E.Encoders(p);
    forall f ensures f in prog <==> f in src {
      if f in prog {
        var i :| 0 <= i < |codecs| && codecs[i] == p[f.takes];
        assert f == E.EncoderOf(codecs[i].name);
      }
    }
    forall f | f in prog ensures src[f] == EL.Outline(prog[f]) && EL.Solid(src[f]) {
      var i :| 0 <= i < |codecs| && f == E.EncoderOf(codecs[i].name);
      assert prog[f] == E.EncoderBody(codecs[i]);
      EncoderSolidBody(codecs[i]);
    }
  }

  lemma {:induction false} EncoderSolidBody(c: Codec)
    ensures EL.Solid(EL.Outline(E.EncoderBody(c)))
  {
    hide EL.Outline, E.EncoderBody;
    EL.EncoderSolid(c);
    ET.SolidOne(F.EncoderDef(c));
  }

  lemma {:induction false} DecodersLaidOut(p: Codecs, codecs: seq<Codec>, src: DT.Source)
    requires Tabled(p, codecs) && D.Apart(p) && F.Finds(codecs, src)
    ensures DT.LaidOut(D.Decoders(p), src)
    ensures F.AllDefined(src) <==> Links.Closed(D.Decoders(p))
  {
    hide Snake, D.DecoderBody, DL.Outline, DL.Solid, Links.Callees, F.Calls, Decodable, D.Decoders, F.Finds;
    var prog := D.Decoders(p);
    FoundAlike(p, codecs, src);
    forall f | f in prog ensures F.Calls(src[f].body) == Links.Callees(prog[f].body) {
      F.OutlineCalls(prog[f].body);
    }
    assert forall n :: D.HasDecoder(prog, n) <==> Snake(n) in src && src[Snake(n)].gives == n;
  }

  /** The file's decoders are the plan's, name by name. */
  lemma {:induction false} FoundAlike(p: Codecs, codecs: seq<Codec>, src: DT.Source)
    requires Tabled(p, codecs) && D.Apart(p) && F.Finds(codecs, src)
    ensures DT.LaidOut(D.Decoders(p), src)
  {
    hide Snake, D.DecoderBody, DL.Outline, DL.Solid, Decodable;
    var prog := D.Decoders(p);
    forall f ensures f in prog <==> f in src {
      if f in prog {
        var n :| n in p && Decodable(p[n]) && f == Snake(n);
        var i :| 0 <= i < |codecs| && codecs[i] == p[n];
      }
      if f in src {
        var i :| 0 <= i < |codecs| && Decodable(codecs[i]) && f == Snake(codecs[i].name);
        D.DecoderAt(p, codecs[i].name);
      }
    }
    forall f | f in prog
      ensures src[f].gives == prog[f].gives && src[f].body == DL.Outline(prog[f].body) && DL.Solid(src[f].body)
    {
      var i :| 0 <= i < |codecs| && Decodable(codecs[i]) && f == Snake(codecs[i].name);
      D.DecoderAt(p, codecs[i].name);
      SolidBody(codecs[i]);
    }
  }

  lemma {:induction false} SolidBody(c: Codec)
    requires Decodable(c)
    ensures DL.Solid(DL.Outline(D.DecoderBody(c)))
  {
    hide DL.Outline, D.DecoderBody;
    DL.DecoderSolid(c);
    DT.SolidOne(F.DecoderDef(c));
  }

  /** The decoders' lines compile exactly when no two have one name and each calls only decoders that are there. */
  lemma {:induction false} CompilesExactly(p: Codecs, codecs: seq<Codec>)
    requires Tabled(p, codecs)
    ensures var r := F.Compiled(Layout(F.DecoderDefs(codecs), 0));
      && (r.Some? <==> D.Apart(p) && Linked(p))
      && (r.Some? ==> DT.LaidOut(D.Decoders(p), r.value))
  {
    hide F.LoadDecoders, F.DecoderDefs, F.Finds, F.AllDefined, F.ApartIn, D.Apart, Linked, Links.Closed, DT.LaidOut,
         Nest, Layout, Tabled, D.Decoders;
    NestLayout(F.DecoderDefs(codecs), 0);
    ApartAlike(p, codecs);
    F.DecodersLoad(codecs);
    if D.Apart(p) {
      DecodersLaidOut(p, codecs, F.LoadDecoders(F.DecoderDefs(codecs)).value);
      Links.ClosedExactly(p);
    }
  }

  /** What `RunFile` runs the lines on is what `Cycle` runs the statements on. */
  lemma {:induction false} LinesCycle(p: Codecs, writers: ET.Source, readers: DT.Source, strict: bool, order: E.Order,
                                      fuel: nat,
                   n: string, v: Value)
    requires D.Apart(p) && ET.LaidOut(E.Encoders(p), writers) && DT.LaidOut(D.Decoders(p), readers)
    ensures F.Marshal(writers, order, fuel, n, v) == ER.Marshal(p, order, fuel, n, v)
    ensures forall toks :: F.Unmarshal(readers, strict, fuel, n, toks) == DR.RunUnmarshal(p, strict, fuel, n, toks)
  {
    hide ET.LaidOut, DT.LaidOut, ET.Run, DT.Run, E.Exec, DT.ReadLines, D.ReadOnce, E.Encoders, D.Decoders;
    var call := E.Call(E.EncoderOf(n), E.Var(E.ValueArg));
    assert EL.Outline(call) == [Node(EL.Plain(call), [])];
    CallSolid(call);
    ET.OutlineRuns(E.Encoders(p), writers, order, fuel, call, E.State(map[E.ValueArg := E.LValue(v)], []));
    forall toks ensures F.Unmarshal(readers, strict, fuel, n, toks) == DR.RunUnmarshal(p, strict, fuel, n, toks) {
      DT.ReadAlike(D.Decoders(p), readers, strict, fuel, EStruct(n), D.State(map[], toks, 0));
    }
  }

  lemma {:induction false} CallSolid(call: E.Stmt)
    requires call.Call?
    ensures EL.Solid(EL.Outline(call))
  {
  }

  /**
   The written file, read back line by line and run: for every accepted plan
   and every value of a decodable struct in it, the value comes back exactly
   when the decoders' names differ, every struct they call has one, nothing in
   the value collapses, and it is not nested past the cap.
   */
  lemma {:induction false} FileExactly(p: Codecs, codecs: seq<Codec>, strict: bool, order: E.Order, fuel: nat,
                                       n: string, v: Value)
    requires Tabled(p, codecs) && Accepted(p) && n in p && Decodable(p[n]) && HasType(p, EStruct(n), v)
    requires E.Enumerates(order) && fuel >= 2 * |Print(p, EStruct(n), v)| + 2
    ensures var r := F.RunFile(Layout(F.EncoderDefs(codecs), 0), Layout(F.DecoderDefs(codecs), 0), strict, order,
                               fuel, n, v);
      && (D.Apart(p) && Linked(p) ==>
            r == (if Deepest(p, EStruct(n), v, 0) <= MAX_NESTING_DEPTH then Ok(Norm(p, EStruct(n),
                  v)) else Failed(TooDeep)))
      && (r == Ok(v) <==>
            && D.Apart(p) && Linked(p)
            && Canonical(p, EStruct(n), v) && Deepest(p, EStruct(n), v, 0) <= MAX_NESTING_DEPTH)
  {
    hide Print, Deepest, Norm, Canonical, HasType, Accepted, Linked, D.Apart, Tabled, Nest, Layout, F.LoadEncoders,
         F.Compiled, F.Marshal, F.Unmarshal, ET.LaidOut, DT.LaidOut, F.EncoderDefs, F.DecoderDefs, ER.Marshal,
         DR.RunUnmarshal;
    EncodersLaidOut(p, codecs);
    CompilesExactly(p, codecs);
    if D.Apart(p) && Linked(p) {
      var writers := F.LoadEncoders(Nest(Layout(F.EncoderDefs(codecs), 0), 0)).value;
      var readers := F.Compiled(Layout(F.DecoderDefs(codecs), 0)).value;
      LinesCycle(p, writers, readers, strict, order, fuel, n, v);
      CycleExactly(p, strict, order, fuel, n, v);
    }
  }

  // --- from the planner on ----------------------------------------------------------------

  lemma {:induction false} PlannedDistinct(w: CS.Index, asked: seq<CS.Struct>, paths: set<string>)
    requires forall i, j :: 0 <= i < j < |asked| && CS.PathOf(asked[i]) in paths && CS.PathOf(asked[j]) in paths ==>
      asked[i].name != asked[j].name
    ensures F.DistinctCodecs(P.CodecsIn(w, asked, paths))
  {
    hide P.CodecFor;
    if asked != [] {
      var init, s := asked[..|asked| - 1], asked[|asked| - 1];
      PlannedDistinct(w, init, paths);
      P.CodecsAre(w, init, paths);
      var before := P.CodecsIn(w, init, paths);
      forall k | 0 <= k < |before| && CS.PathOf(s) in paths ensures before[k].name != s.name {
        assert before[k] in before;
        var i :| 0 <= i < |init| && CS.PathOf(init[i]) in paths && before[k] == P.CodecFor(w, init[i]);
        NamedFor(w, init[i]);
        assert asked[i] == init[i];
      }
      NamedFor(w, s);
    }
  }

  lemma {:induction false} NamedFor(w: CS.Index, s: CS.Struct)
    ensures P.CodecFor(w, s).name == s.name
  {
  }

  lemma {:induction false} PlannedTabled(w: CS.Index)
    requires P.Sensible(w)
    ensures var codecs := P.CodecsIn(w, w.asked, P.Survivors(w)); Tabled(P.Table(codecs), codecs)
  {
    hide P.Table, P.CodecsIn, P.Survivors, P.CodecFor, CS.Plannable, P.Leads, P.Paths, CS.PathOf;
    var codecs := P.CodecsIn(w, w.asked, P.Survivors(w));
    P.SurvivorsGreatest(w);
    var paths := P.Survivors(w);
    forall i, j | 0 <= i < j < |w.asked| && CS.PathOf(w.asked[i]) in paths && CS.PathOf(w.asked[j]) in paths
      ensures w.asked[i].name != w.asked[j].name
    {
      assert !P.Twinned(w.asked, w.asked[i]);
    }
    PlannedDistinct(w, w.asked, P.Survivors(w));
    P.TableOf(codecs);
    P.CodecsAre(w, w.asked, P.Survivors(w));
    P.PlanTable(w);
    forall i | 0 <= i < |codecs|
      ensures codecs[i].name in P.Table(codecs) && P.Table(codecs)[codecs[i].name] == codecs[i]
    {
      assert codecs[i] in codecs;
      var k :| 0 <= k < |w.asked| && CS.PathOf(w.asked[k]) in P.Survivors(w) && codecs[i] == P.CodecFor(w, w.asked[k]);
      NamedFor(w, w.asked[k]);
    }
  }

  /**
   The same from the planner on.  Whatever a package asks for, the file written
   for its plan gives back every value of every struct it can decode exactly
   when no two of its decoders share a name, they call only each other, and the
   value neither collapses nor nests too deep.
   */
  lemma {:induction false} PlannedCycle(w: CS.Index, strict: bool, order: E.Order, fuel: nat, n: string, v: Value)
    requires P.Sensible(w) && E.Enumerates(order)
    requires var p := P.Table(P.CodecsIn(w, w.asked, P.Survivors(w)));
      n in p && Decodable(p[n]) && HasType(p, EStruct(n), v) && fuel >= 2 * |Print(p, EStruct(n), v)| + 2
    ensures var codecs := P.CodecsIn(w, w.asked, P.Survivors(w));
      var p := P.Table(codecs);
      F.RunFile(Layout(F.EncoderDefs(codecs), 0), Layout(F.DecoderDefs(codecs), 0), strict, order, fuel, n,
                v) == Ok(v) <==>
        && D.Apart(p) && Linked(p)
        && Canonical(p, EStruct(n), v) && Deepest(p, EStruct(n), v, 0) <= MAX_NESTING_DEPTH
  {
    hide P.Table, P.CodecsIn, P.Survivors, P.Sensible, E.Enumerates, Accepted, Tabled, HasType, Print, F.RunFile,
         D.Apart, Linked, Canonical, Deepest, F.EncoderDefs, F.DecoderDefs, Layout, Decodable;
    var codecs := P.CodecsIn(w, w.asked, P.Survivors(w));
    PlannedTabled(w);
    P.PlanIsAccepted(w);
    FileExactly(P.Table(codecs), codecs, strict, order, fuel, n, v);
  }
}
