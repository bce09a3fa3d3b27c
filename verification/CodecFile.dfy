/**
 The generated file as lines: written codec by codec, read back by indentation,
 compiled, and run.  The file compiles when no decoder is defined twice and
 every decoder that is called is there and gives the struct it is called for.
 Encoders may share a name, because the type of the argument tells them apart.
 */
module CodecFile {
  import opened Common
  import opened JsonModel
  import opened JsonText
  import opened JsonRoundTrip
  import opened CodecNames
  import opened EmitBody
  import E = EmitEncoder
  import EL = EncoderLines
  import ET = EncoderText
  import ER = EncoderRuns
  import D = EmitDecoder
  import DL = DecoderLines
  import DT = DecoderText
  import DR = DecoderRuns
  import Links = DecoderLinks

  // --- writing it ------------------------------------------------------------------

  function EncoderDef(c: Codec): Node<EL.Head> {
    Node(EL.Def(E.EncoderOf(c.name)), EL.Outline(E.EncoderBody(c)))
  }

  function EncoderDefs(codecs: seq<Codec>): seq<Node<EL.Head>> {
    if codecs == [] then [] else [EncoderDef(codecs[0])] + EncoderDefs(codecs[1..])
  }

  function DecoderDef(c: Codec): Node<DL.Head>
    requires Decodable(c)
  {
    Node(DL.Opening(Snake(c.name), c.name), DL.Outline(D.DecoderBody(c)))
  }

  function DecoderDefs(codecs: seq<Codec>): seq<Node<DL.Head>> {
    if codecs == [] then []
    else (if Decodable(codecs[0]) then [DecoderDef(codecs[0])] else []) + DecoderDefs(codecs[1..])
  }

  lemma {:induction false} EncoderNext(codecs: seq<Codec>, done: seq<Line<EL.Head>>)
    requires codecs != []
    ensures done + Layout(EncoderDefs(codecs), 0)
      == done + Layout([EncoderDef(codecs[0])], 0) + Layout(EncoderDefs(codecs[1..]), 0)
  {
    LayoutConcat([EncoderDef(codecs[0])], EncoderDefs(codecs[1..]), 0);
  }

  lemma {:induction false} DecoderNext(codecs: seq<Codec>, done: seq<Line<DL.Head>>)
    requires codecs != []
    ensures done + Layout(DecoderDefs(codecs), 0)
      == done + (if Decodable(codecs[0]) then Layout([DecoderDef(codecs[0])], 0) else [])
        + Layout(DecoderDefs(codecs[1..]), 0)
  {
    hide Layout, D.DecoderBody, DL.Outline;
    if Decodable(codecs[0]) {
      LayoutConcat([DecoderDef(codecs[0])], DecoderDefs(codecs[1..]), 0);
    } else {
      assert DecoderDefs(codecs) == DecoderDefs(codecs[1..]);
      assert done + [] == done;
    }
  }

  /** The loop of `emit` over the plan: an encoder for each codec, and a decoder where there can be one. */
  method WriteFile(codecs: seq<Codec>) returns (encoders: seq<Line<EL.Head>>, decoders: seq<Line<DL.Head>>)
    ensures encoders == Layout(EncoderDefs(codecs), 0) && decoders == Layout(DecoderDefs(codecs), 0)
  {
    hide Layout, Nest, EncoderDefs, DecoderDefs, E.EncoderBody, D.DecoderBody, EL.Outline, DL.Outline;
    encoders, decoders := [], [];
    assert codecs[0..] == codecs;
    for i := 0 to |codecs|
      invariant encoders + Layout(EncoderDefs(codecs[i..]), 0) == Layout(EncoderDefs(codecs), 0)
      invariant decoders + Layout(DecoderDefs(codecs[i..]), 0) == Layout(DecoderDefs(codecs), 0)
    {
      var c := codecs[i];
      assert codecs[i..][0] == c && codecs[i..][1..] == codecs[i + 1..];
      EncoderNext(codecs[i..], encoders);
      DecoderNext(codecs[i..], decoders);
      var written := EL.WriteEncoder(c);
      encoders := encoders + written;
      if Decodable(c) {
        var reader := DL.WriteDecoder(c);
        decoders := decoders + reader;
      }
    }
    NothingLeft(codecs[|codecs|..]);
  }

  lemma {:induction false} NothingLeft(codecs: seq<Codec>)
    requires codecs == []
    ensures Layout(EncoderDefs(codecs), 0) == [] && Layout(DecoderDefs(codecs), 0) == []
  {
  }

  // --- compiling it ----------------------------------------------------------------

  /** The encoders found in a file, unless one is defined twice for one type. */
  function LoadEncoders(nodes: seq<Node<EL.Head>>): Option<ET.Source> {
    if nodes == [] then Some(map[])
    else
      match (nodes[0].head, LoadEncoders(nodes[1..]))
      case (Def(func), Some(rest)) => if func in rest then None else Some(rest[func := nodes[0].body])
      case _ => None
  }

  /** The decoders found in a file, unless two have one name. */
  function LoadDecoders(nodes: seq<Node<DL.Head>>): Option<DT.Source> {
    if nodes == [] then Some(map[])
    else
      match (nodes[0].head, LoadDecoders(nodes[1..]))
      case (Opening(func, gives), Some(rest)) =>
        if func in rest then None else Some(rest[func := DT.Written(gives, nodes[0].body)])
      case _ => None
  }

  /** The structs whose decoders the lines of a block call. */
  function Calls(nodes: seq<Node<DL.Head>>): set<string> {
    if nodes == [] then {}
    else
      (if nodes[0].head.Plain? then Links.Callees(nodes[0].head.s) else {})
      + Calls(nodes[0].body) + Calls(nodes[1..])
  }

  ghost predicate AllDefined(src: DT.Source) {
    forall f, n :: f in src && n in Calls(src[f].body) ==> Snake(n) in src && src[Snake(n)].gives == n
  }

  ghost function Compiled(decoders: seq<Line<DL.Head>>): Option<DT.Source> {
    match LoadDecoders(Nest(decoders, 0))
    case None => None
    case Some(src) => if AllDefined(src) then Some(src) else None
  }

  // --- running it ------------------------------------------------------------------

  /** `marshal_json`: a call on an empty buffer. */
  function Marshal(src: ET.Source, order: E.Order, fuel: nat, n: string, v: Value): Outcome<seq<Token>> {
    var line := Node(EL.Plain(E.Call(E.EncoderOf(n), E.Var(E.ValueArg))), []);
    match ET.Run(src, order, fuel, [line], E.State(map[E.ValueArg := E.LValue(v)], []))
    case Failed(err) => Failed(err)
    case Ok(st) => Ok(st.out)
  }

  /** `unmarshal_json_<struct>`: the decoder, and then nothing may be left. */
  function Unmarshal(src: DT.Source, strict: bool, fuel: nat, n: string, toks: seq<Token>): Outcome<Value> {
    match DT.ReadLines(src, strict, fuel, EStruct(n), D.State(map[], toks, 0))
    case Failed(err) => Failed(err)
    case Ok(vt) => if vt.1 == [] then Ok(vt.0) else Failed(Trailing)
  }

  /** A value through the file's encoder and back through its decoder.  A file that does not compile does nothing. */
  ghost function RunFile(encoders: seq<Line<EL.Head>>, decoders: seq<Line<DL.Head>>, strict: bool, order: E.Order,
                         fuel: nat, n: string, v: Value): Outcome<Value>
  {
    match (LoadEncoders(Nest(encoders, 0)), Compiled(decoders))
    case (Some(writers), Some(readers)) =>
      (match Marshal(writers, order, fuel, n, v)
       case Failed(err) => Failed(err)
       case Ok(toks) => Unmarshal(readers, strict, fuel, n, toks))
    case _ => Failed(IllFormed)
  }

  // --- what compiling finds -----------------------------------------------------------

  ghost predicate DistinctCodecs(codecs: seq<Codec>) {
    forall i, j :: 0 <= i < j < |codecs| ==> codecs[i].name != codecs[j].name
  }

  lemma {:induction false} EncodersLoad(codecs: seq<Codec>)
    requires DistinctCodecs(codecs)
    ensures var r := LoadEncoders(EncoderDefs(codecs));
      && r.Some?
      && (forall f :: f in r.value <==> exists i :: 0 <= i < |codecs| && f == E.EncoderOf(codecs[i].name))
      && (forall i :: 0 <= i < |codecs| ==>
            r.value[E.EncoderOf(codecs[i].name)] == EL.Outline(E.EncoderBody(codecs[i])))
  {
    if codecs != [] {
      var tail := codecs[1..];
      assert forall i :: 0 <= i < |tail| ==> tail[i] == codecs[i + 1];
      EncodersLoad(tail);
      assert EncoderDefs(codecs)[1..] == EncoderDefs(tail);
      var r, rest := LoadEncoders(EncoderDefs(codecs)), LoadEncoders(EncoderDefs(tail)).value;
      assert E.EncoderOf(codecs[0].name) !in rest;
      forall f ensures f in r.value <==> exists i :: 0 <= i < |codecs| && f == E.EncoderOf(codecs[i].name) {
        if f in rest {
          var i :| 0 <= i < |tail| && f == E.EncoderOf(tail[i].name);
          assert f == E.EncoderOf(codecs[i + 1].name);
        }
        if i :| 0 <= i < |codecs| && f == E.EncoderOf(codecs[i].name) {
          if i > 0 { assert f == E.EncoderOf(tail[i - 1].name); }
        }
      }
      forall i | 0 <= i < |codecs|
        ensures r.value[E.EncoderOf(codecs[i].name)] == EL.Outline(E.EncoderBody(codecs[i]))
      {
        if i > 0 { assert codecs[i] == tail[i - 1]; }
      }
    }
  }

  /** No two of the codecs that have a decoder have it under one name. */
  ghost predicate ApartIn(codecs: seq<Codec>) {
    forall i, j :: 0 <= i < j < |codecs| && Decodable(codecs[i]) && Decodable(codecs[j]) ==>
      Snake(codecs[i].name) != Snake(codecs[j].name)
  }

  ghost predicate Finds(codecs: seq<Codec>, src: DT.Source) {
    && (forall f :: f in src ==> exists i :: 0 <= i < |codecs| && Decodable(codecs[i]) && f == Snake(codecs[i].name))
    && (forall i :: 0 <= i < |codecs| && Decodable(codecs[i]) ==>
          && Snake(codecs[i].name) in src
          && src[Snake(codecs[i].name)] == DT.Written(codecs[i].name, DL.Outline(D.DecoderBody(codecs[i]))))
  }

  /** A file of decoders loads exactly when no two have one name, and then each is found under its own. */
  lemma {:induction false} DecodersLoad(codecs: seq<Codec>)
    ensures LoadDecoders(DecoderDefs(codecs)).Some? <==> ApartIn(codecs)
    ensures ApartIn(codecs) ==> Finds(codecs, LoadDecoders(DecoderDefs(codecs)).value)
  {
    if codecs != [] {
      var c, tail := codecs[0], codecs[1..];
      assert forall i :: 0 <= i < |tail| ==> tail[i] == codecs[i + 1];
      DecodersLoad(tail);
      ApartTail(codecs);
      if Decodable(c) {
        assert DecoderDefs(codecs)[1..] == DecoderDefs(tail);
        var rest := LoadDecoders(DecoderDefs(tail));
        if rest.Some? { LoadOne(codecs, rest.value); }
      } else {
        assert DecoderDefs(codecs) == DecoderDefs(tail);
        if ApartIn(tail) { FindsMore(codecs, LoadDecoders(DecoderDefs(tail)).value); }
      }
    }
  }

  lemma {:induction false} ApartTail(codecs: seq<Codec>)
    requires codecs != []
    ensures ApartIn(codecs) <==>
      ApartIn(codecs[1..]) && (Decodable(codecs[0]) ==>
        forall i :: 0 <= i < |codecs| - 1 && Decodable(codecs[1..][i]) ==>
          Snake(codecs[1..][i].name) != Snake(codecs[0].name))
  {
    var tail := codecs[1..];
    assert forall i :: 0 <= i < |tail| ==> tail[i] == codecs[i + 1];
    if ApartIn(tail) && (Decodable(codecs[0]) ==>
         forall i :: 0 <= i < |tail| && Decodable(tail[i]) ==> Snake(tail[i].name) != Snake(codecs[0].name)) {
      forall i, j | 0 <= i < j < |codecs| && Decodable(codecs[i]) && Decodable(codecs[j])
        ensures Snake(codecs[i].name) != Snake(codecs[j].name)
      {
        assert codecs[j] == tail[j - 1];
        if i > 0 { assert codecs[i] == tail[i - 1]; }
      }
    }
  }

  lemma {:induction false} FindsMore(codecs: seq<Codec>, rest: DT.Source)
    requires codecs != [] && !Decodable(codecs[0]) && Finds(codecs[1..], rest)
    ensures Finds(codecs, rest)
  {
    hide D.DecoderBody, DL.Outline, Snake;
    var tail := codecs[1..];
    forall f | f in rest ensures exists i :: 0 <= i < |codecs| && Decodable(codecs[i]) && f == Snake(codecs[i].name) {
      var i :| 0 <= i < |tail| && Decodable(tail[i]) && f == Snake(tail[i].name);
      assert codecs[i + 1] == tail[i];
    }
    forall i | 0 <= i < |codecs| && Decodable(codecs[i])
      ensures Snake(codecs[i].name) in rest
      ensures rest[Snake(codecs[i].name)] == DT.Written(codecs[i].name, DL.Outline(D.DecoderBody(codecs[i])))
    {
      assert codecs[i] == tail[i - 1];
    }
  }

  lemma {:induction false} LoadOne(codecs: seq<Codec>, rest: DT.Source)
    requires codecs != [] && Decodable(codecs[0]) && Finds(codecs[1..], rest)
    ensures Snake(codecs[0].name) in rest <==>
      exists i :: 0 <= i < |codecs| - 1 && Decodable(codecs[1..][i])
                  && Snake(codecs[1..][i].name) == Snake(codecs[0].name)
    ensures Snake(codecs[0].name) !in rest ==>
      Finds(codecs, rest[Snake(codecs[0].name) := DT.Written(codecs[0].name, DL.Outline(D.DecoderBody(codecs[0])))])
  {
    hide D.DecoderBody, DL.Outline, Snake;
    var c, tail := codecs[0], codecs[1..];
    if Snake(c.name) !in rest {
      var now := rest[Snake(c.name) := DT.Written(c.name, DL.Outline(D.DecoderBody(c)))];
      forall f | f in now ensures exists i :: 0 <= i < |codecs| && Decodable(codecs[i]) && f == Snake(codecs[i].name) {
        if f in rest {
          var i :| 0 <= i < |tail| && Decodable(tail[i]) && f == Snake(tail[i].name);
          assert codecs[i + 1] == tail[i];
        }
      }
      forall i | 0 <= i < |codecs| && Decodable(codecs[i])
        ensures Snake(codecs[i].name) in now
        ensures now[Snake(codecs[i].name)] == DT.Written(codecs[i].name, DL.Outline(D.DecoderBody(codecs[i])))
      {
        if i > 0 { assert codecs[i] == tail[i - 1]; }
      }
    }
  }

  // --- calls ---------------------------------------------------------------------------

  lemma {:induction false} CallsConcat(a: seq<Node<DL.Head>>, b: seq<Node<DL.Head>>)
    ensures Calls(a + b) == Calls(a) + Calls(b)
  {
    if a == [] {
      assert a + b == b;
    } else {
      assert (a + b)[1..] == a[1..] + b;
      CallsConcat(a[1..], b);
    }
  }

  lemma {:induction false} CallsOne(h: DL.Head, body: seq<Node<DL.Head>>)
    ensures Calls([Node(h, body)]) == (if h.Plain? then Links.Callees(h.s) else {}) + Calls(body)
  {
    assert [Node(h, body)][1..] == [];
    assert Calls([]) == {};
  }

  /** The calls in a statement's lines are the calls in the statement. */
  lemma {:induction false} OutlineCalls(s: D.Stmt)
    ensures Calls(DL.Outline(s)) == Links.Callees(s)
    decreases s, 0
  {
    match s
    case Pass =>
    case Then(a, b) =>
      OutlineCalls(a);
      OutlineCalls(b);
      CallsConcat(DL.Outline(a), DL.Outline(b));
    case UnlessAccept(t, body) => OutlineCalls(body); CallsOne(DL.UnlessTaken(t), DL.Outline(body));
    case IfAccept(t, body) => OutlineCalls(body); CallsOne(DL.IfTaken(t), DL.Outline(body));
    case UnlessNull(body) => OutlineCalls(body); CallsOne(DL.UnlessNullTaken, DL.Outline(body));
    case Forever(body) => OutlineCalls(body); CallsOne(DL.WhileTrue, DL.Outline(body));
    case UnlessSet(x, body) => OutlineCalls(body); CallsOne(DL.UnlessHeld(x), DL.Outline(body));
    case IfKey(key, json, yes, no) =>
      OutlineCalls(yes);
      RestCalls(no);
      CallsOne(DL.IfKeyIs(key, json), DL.Outline(yes));
      CallsConcat([Node(DL.IfKeyIs(key, json), DL.Outline(yes))], DL.Rest(no));
    case _ => CallsOne(DL.Plain(s), []);
  }

  lemma {:induction false} RestCalls(s: D.Stmt)
    ensures Calls(DL.Rest(s)) == Links.Callees(s)
    decreases s, 1
  {
    if s.IfKey? {
      OutlineCalls(s.yes);
      RestCalls(s.no);
      CallsOne(DL.ElifKeyIs(s.key, s.json), DL.Outline(s.yes));
      CallsConcat([Node(DL.ElifKeyIs(s.key, s.json), DL.Outline(s.yes))], DL.Rest(s.no));
    } else {
      OutlineCalls(s);
      CallsOne(DL.Otherwise, DL.Outline(s));
    }
  }
}
