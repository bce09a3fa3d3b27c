/**
 Whether the decoders of a generated file can be compiled together: each calls
 the decoders of the structs it holds, and those have to be in the file, under
 names of their own.  The planner sees to it that a held struct has a codec, but
 not that the codec has a decoder, nor that two decoders have two names.
 */
module DecoderLinks {
  import opened Common
  import opened JsonModel
  import opened CodecStruct
  import opened CodecPlan
  import opened CodecNames
  import opened EmitDecoder

  function CalledBy(ty: Encoding): set<string> {
    if ty.EStruct? then {ty.name} else {}
  }

  /** The structs whose decoders a statement calls. */
  function Callees(s: Stmt): set<string> {
    match s
    case Then(a, b) => Callees(a) + Callees(b)
    case UnlessAccept(_, body) => Callees(body)
    case IfAccept(_, body) => Callees(body)
    case UnlessNull(body) => Callees(body)
    case Forever(body) => Callees(body)
    case UnlessSet(_, body) => Callees(body)
    case IfKey(_, _, yes, no) => Callees(yes) + Callees(no)
    case DeclareRead(_, ty) => CalledBy(ty)
    case AssignRead(_, ty) => CalledBy(ty)
    case _ => {}
  }

  lemma {:induction false} ReadCallees(what: Encoding, x: Name, n: nat)
    ensures Callees(ReadInto(what, x, n)) == StructsIn(what)
    decreases what, 1
  {
    if Composite(what) { FillCallees(what, x, n); }
  }

  lemma {:induction false} FillCallees(what: Encoding, x: Name, n: nat)
    requires Composite(what)
    ensures Callees(Fill(what, x, n)) == StructsIn(what)
    decreases what, 0
  {
    hide ReadInto, Bracketed, AgainAfterComma;
    match what
    case EOptional(a) =>
      var held := Temp("held", n + 1);
      ReadCallees(a, held, n + 1);
      assert Callees(Then(ReadInto(a, held, n + 1), AssignVar(x, held))) == StructsIn(a);
    case EList(a) =>
      var read := ReadInto(a, Temp("item", n + 1), n + 1);
      ReadCallees(a, Temp("item", n + 1), n + 1);
      TurnCallees(LBracket, RBracket, ItemTurn(x, n, read));
      AgainCallees();
      assert Callees(Then(AppendTo(x, Temp("item", n + 1)), AgainAfterComma())) == {};
    case EDict(a) =>
      var read := ReadInto(a, Temp("held", n + 2), n + 2);
      ReadCallees(a, Temp("held", n + 2), n + 2);
      TurnCallees(LBrace, RBrace, EntryTurn(x, n, read));
      AgainCallees();
      var store := StoreAt(x, Temp("key", n + 1), Temp("held", n + 2));
      assert Callees(Then(store, AgainAfterComma())) == {};
      assert Callees(Then(read, Then(store, AgainAfterComma()))) == StructsIn(a);
      assert Callees(Then(DeclareKey(Temp("key", n + 1)), ExpectToken(Colon))) == {};
  }

  lemma {:induction false} TurnCallees(left: Token, right: Token, turn: Stmt)
    ensures Callees(Bracketed(left, right, turn)) == Callees(turn)
  {
    assert Callees(Then(Enter, ExpectToken(left))) == {};
    var loop := Then(Forever(turn), ExpectToken(right));
    assert Callees(Forever(turn)) == Callees(turn);
    assert Callees(loop) == Callees(turn);
    assert Callees(UnlessAccept(right, loop)) == Callees(turn);
    assert Callees(Then(UnlessAccept(right, loop), LeaveLevel)) == Callees(turn);
  }

  lemma {:induction false} AgainCallees()
    ensures Callees(AgainAfterComma()) == {}
  {
    assert Callees(IfAccept(Comma, Continue)) == {};
  }

  lemma {:induction false} ReplaceCallees(what: Encoding, x: Name, n: nat)
    ensures Callees(Replace(what, x, n)) == StructsIn(what)
  {
    if Composite(what) { ReadCallees(what, Temp("held", n + 1), n + 1); }
  }

  /** The structs that the fields in `ms` hold. */
  function HeldBy(ms: seq<Member>): set<string>
    requires forall i :: 0 <= i < |ms| ==> ms[i].Field?
  {
    if ms == [] then {} else StructsIn(ms[0].encoding) + HeldBy(ms[1..])
  }

  lemma {:induction false} DispatchCallees(ms: seq<Member>, n: nat)
    requires forall i :: 0 <= i < |ms| ==> ms[i].Field?
    ensures Callees(Dispatch(ms, n)) == HeldBy(ms)
  {
    if ms != [] {
      ReplaceCallees(ms[0].encoding, Slot(ms[0].name), n);
      DispatchCallees(ms[1..], n + ReplaceTemps(ms[0].encoding));
    }
  }

  lemma {:induction false} QuietParts(c: string, ms: seq<Member>)
    requires forall i :: 0 <= i < |ms| ==> ms[i].Field?
    ensures Callees(Slots(ms)) == {} && Callees(Checks(c, ms)) == {}
  {
    if ms != [] {
      QuietParts(c, ms[1..]);
      assert Callees(RaiseMissing(c, ms[0].json)) == {};
      assert Callees(UnlessSet(Slot(ms[0].name), RaiseMissing(c, ms[0].json))) == {};
    }
  }

  lemma {:induction false} HeldAre(ms: seq<Member>, n: string)
    requires forall i :: 0 <= i < |ms| ==> ms[i].Field?
    ensures n in HeldBy(ms) <==> exists i :: 0 <= i < |ms| && n in StructsIn(ms[i].encoding)
  {
    if ms != [] {
      HeldAre(ms[1..], n);
      if i :| 0 <= i < |ms| && n in StructsIn(ms[i].encoding) {
        if i > 0 { assert n in StructsIn(ms[1..][i - 1].encoding); }
      }
      if n in HeldBy(ms[1..]) {
        var i :| 0 <= i < |ms| - 1 && n in StructsIn(ms[1..][i].encoding);
        assert n in StructsIn(ms[i + 1].encoding);
      }
    }
  }

  lemma {:induction false} MemberTurnCallees(ms: seq<Member>)
    requires forall i :: 0 <= i < |ms| ==> ms[i].Field?
    ensures Callees(MemberTurn(ms)) == Callees(Dispatch(ms, 0))
  {
    AgainCallees();
    assert Callees(Then(DeclareKey(KeyVar), ExpectToken(Colon))) == {};
    assert Callees(Then(Dispatch(ms, 0), AgainAfterComma())) == Callees(Dispatch(ms, 0));
  }

  lemma {:induction false} HeldIsUsed(c: Codec)
    requires Decodable(c)
    ensures HeldBy(c.members) == NamesUsed(c)
  {
    hide HeldBy, StructsIn;
    forall n ensures n in HeldBy(c.members) <==> n in NamesUsed(c) { HeldAre(c.members, n); }
  }

  lemma {:induction false} FourCallees(a: Stmt, b: Stmt, c: Stmt, d: Stmt)
    ensures Callees(Then(Then(a, b), Then(c, d))) == Callees(a) + Callees(b) + Callees(c) + Callees(d)
  {
    assert Callees(Then(a, b)) == Callees(a) + Callees(b);
    assert Callees(Then(c, d)) == Callees(c) + Callees(d);
  }

  /** A decoder calls exactly the decoders of the structs its fields hold. */
  lemma {:induction false} BodyCallees(c: Codec)
    requires Decodable(c)
    ensures Callees(DecoderBody(c)) == NamesUsed(c)
  {
    hide Slots, Checks, Bracketed, MemberTurn, Dispatch, Args, FieldNames, HeldBy, NamesUsed;
    var build := Build(c.name, FieldNames(c.members), Args(c.members));
    DispatchCallees(c.members, 0);
    QuietParts(c.name, c.members);
    TurnCallees(LBrace, RBrace, MemberTurn(c.members));
    MemberTurnCallees(c.members);
    FourCallees(Slots(c.members), Bracketed(LBrace, RBrace, MemberTurn(c.members)), Checks(c.name, c.members), build);
    assert Callees(build) == {};
    HeldIsUsed(c);
  }

  /** Every call in the emitted decoders is to one of them, and it gives the struct that is wanted. */
  ghost predicate Closed(prog: Program) {
    forall f, n :: f in prog && n in Callees(prog[f].body) ==> HasDecoder(prog, n)
  }

  /** With one decoder to a name, they are closed exactly when every decodable struct holds only decodable ones. */
  lemma {:induction false} ClosedExactly(p: Codecs)
    requires Apart(p)
    ensures Closed(Decoders(p)) <==> Linked(p)
  {
    forall n | n in p && Decodable(p[n]) ensures HasDecoder(Decoders(p), n) && Callees(Decoders(p)[Snake(n)].body)
      == NamesUsed(p[n]) {
      DecoderAt(p, n);
      BodyCallees(p[n]);
    }
    if Linked(p) { LinkedCloses(p); }
    if Closed(Decoders(p)) {
      forall n, i | n in p && Decodable(p[n]) && 0 <= i < |p[n].members|
        ensures Readable(p, p[n].members[i].encoding)
      {
        assert HasDecoder(Decoders(p), n);
        forall m | m in StructsIn(p[n].members[i].encoding) ensures m in p && Decodable(p[m]) {
          assert m in NamesUsed(p[n]);
          DecoderAt(p, m);
        }
      }
    }
  }

  lemma {:induction false} LinkedCloses(p: Codecs)
    requires Apart(p) && Linked(p)
    ensures Closed(Decoders(p))
  {
    forall f, m | f in Decoders(p) && m in Callees(Decoders(p)[f].body) ensures HasDecoder(Decoders(p), m) {
      var n :| n in p && Decodable(p[n]) && Snake(n) == f && Decoders(p)[f] == Def(n, DecoderBody(p[n]));
      BodyCallees(p[n]);
      var i :| 0 <= i < |p[n].members| && p[n].members[i].Field? && m in StructsIn(p[n].members[i].encoding);
      assert Readable(p, p[n].members[i].encoding);
      DecoderAt(p, m);
    }
  }

  // --- a plan that is accepted and does not link ----------------------------------------

  function IntType(): TypeRef { TypeRef(false, true, "Int", "", []) }

  function LogType(): TypeRef { TypeRef(false, true, "Log", "m.Log", []) }

  /** A struct with a field that is left off the wire, which encodes and does not decode. */
  function LogStruct(): Struct {
    Struct("Log", "m", [FieldDecl("at", IntType(), Some("-"))], false, true, true)
  }

  /** A struct that holds one. */
  function PageStruct(): Struct {
    Struct("Page", "m", [FieldDecl("log", LogType(), None)], false, true, true)
  }

  function Unlinked(): Index {
    Index([LogStruct(), PageStruct()], map["m.Log" := LogStruct()], _ => true)
  }

  lemma {:induction false} LogPlan(known: set<string>)
    ensures MemberOf(Unlinked(), known, LogStruct().fields[0]) == Some(Skipped("at"))
    ensures MembersOf(Unlinked(), known, LogStruct().fields) == [Skipped("at")]
    ensures Plannable(Unlinked(), known, LogStruct())
  {
    var fields := LogStruct().fields;
    assert fields[..0] == [];
    assert MembersOf(Unlinked(), known, []) == [];
    assert [Skipped("at")][..0] == [];
  }

  lemma {:induction false} PagePlan(known: set<string>)
    requires "m.Log" in known
    ensures MembersOf(Unlinked(), known, PageStruct().fields) == [Field("log", "log", EStruct("Log"), false)]
    ensures Plannable(Unlinked(), known, PageStruct())
  {
    var fields := PageStruct().fields;
    assert fields[..0] == [];
    assert PathOf(LogStruct()) == "m.Log";
    assert ScalarFor(LogType()).None?;
    assert EncodingOf(LogType(), Unlinked().resolve, known) == Some(EStruct("Log"));
    assert MemberOf(Unlinked(), known, fields[0]) == Some(Field("log", "log", EStruct("Log"), false));
    assert MembersOf(Unlinked(), known, []) == [];
  }

  lemma {:induction false} UnlinkedPaths()
    ensures PathOf(LogStruct()) == "m.Log" && PathOf(PageStruct()) == "m.Page" && "m.Log" != "m.Page" && "Log" != "Page"
    ensures Paths(Unlinked().asked) == {"m.Log", "m.Page"}
    ensures !Twinned(Unlinked().asked, LogStruct()) && !Twinned(Unlinked().asked, PageStruct())
  {
    var asked := Unlinked().asked;
    assert asked[0] == LogStruct() && asked[1] == PageStruct();
    assert PathOf(asked[0]) == "m.Log" && PathOf(asked[1]) == "m.Page";
    assert "m.Log"[2] == 'L' && "m.Page"[2] == 'P' && "Log"[0] == 'L' && "Page"[0] == 'P';
  }

  lemma {:induction false} UnlinkedLeads()
    ensures Leads(Unlinked(), PageStruct()) <= {"m.Log"} && Leads(Unlinked(), LogStruct()) == {}
  {
    var w := Unlinked();
    assert PathOf(LogStruct()) == "m.Log";
    assert LeadsTo(LogType(), w.resolve) == {"m.Log"} by { assert ScalarFor(LogType()).None?; }
    assert PageStruct().fields[0].ty == LogType() && |PageStruct().fields| == 1;
    assert TagOf(LogStruct().fields[0]).skip && |LogStruct().fields| == 1;
  }

  lemma {:induction false} UnlinkedSensible()
    ensures Sensible(Unlinked())
  {
    var w := Unlinked();
    UnlinkedPaths();
    assert forall i :: 0 <= i < |w.asked| ==> |w.asked[i].fields| == 1;
  }

  lemma {:induction false} UnlinkedSurvive()
    ensures Survivors(Unlinked()) == {"m.Log", "m.Page"}
  {
    var w := Unlinked();
    var all := Paths(w.asked);
    UnlinkedPaths();
    UnlinkedLeads();
    LogPlan(all);
    PagePlan(all);
    forall i | 0 <= i < |w.asked| ensures Planned(w, w.asked[i]) && Leads(w, w.asked[i]) <= all {
      assert w.asked[i] == if i == 0 then LogStruct() else PageStruct();
    }
    assert Supported(w, all);
    SurvivorsGreatest(w);
  }

  lemma {:induction false} UnlinkedTable()
    ensures var p := Table(CodecsIn(Unlinked(), Unlinked().asked, Survivors(Unlinked())));
      && "Log" in p && p["Log"].members == [Skipped("at")]
      && "Page" in p && p["Page"].members == [Field("log", "log", EStruct("Log"), false)]
  {
    hide MembersOf, CodecsIn, Table, Survivors;
    var w := Unlinked();
    UnlinkedPaths();
    UnlinkedSurvive();
    UnlinkedSensible();
    PlanTable(w);
    LogPlan(Paths(w.asked));
    PagePlan(Paths(w.asked));
    assert w.asked[0] == LogStruct() && w.asked[1] == PageStruct();
  }

  /** The planner accepts it, and the decoder of `Page` calls a decoder of `Log` that nothing emits. */
  lemma {:induction false} UnlinkedIsAccepted()
    ensures var p := Table(CodecsIn(Unlinked(), Unlinked().asked, Survivors(Unlinked())));
      && Accepted(p) && "Page" in p && Decodable(p["Page"])
      && "Log" in Callees(DecoderBody(p["Page"])) && "Log" in p && !Decodable(p["Log"])
  {
    hide CodecsIn, Table, Survivors, Unlinked, Accepted, Sensible, Callees, DecoderBody;
    UnlinkedSensible();
    PlanIsAccepted(Unlinked());
    UnlinkedTable();
    var p := Table(CodecsIn(Unlinked(), Unlinked().asked, Survivors(Unlinked())));
    assert p["Log"].members[0].Skipped?;
    BodyCallees(p["Page"]);
    assert p["Page"].members[0].Field? && "Log" in StructsIn(p["Page"].members[0].encoding);
    assert "Log" in NamesUsed(p["Page"]);
  }

  // --- a plan that is accepted and has two decoders of one name ----------------------------

  /** A struct of one number. */
  function KeyStruct(name: string): Struct {
    Struct(name, "m", [FieldDecl("n", IntType(), None)], false, true, true)
  }

  function Colliding(): Index {
    Index([KeyStruct("ID"), KeyStruct("Id")], map[], _ => true)
  }

  lemma {:induction false} IntPlan(known: set<string>)
    ensures EncodingOf(IntType(), Colliding().resolve, known) == Some(EInt(0))
    ensures LeadsTo(IntType(), Colliding().resolve) == {}
  {
    assert ScalarFor(IntType()) == Some(EInt(0));
  }

  lemma {:induction false} KeyMember(known: set<string>, d: FieldDecl)
    requires d == FieldDecl("n", IntType(), None)
    ensures MemberOf(Colliding(), known, d) == Some(Field("n", "n", EInt(0), false)) && TagFine(Colliding().alnum, d)
  {
    hide EncodingOf;
    IntPlan(known);
  }

  lemma {:induction false} KeyPlan(name: string, known: set<string>)
    ensures MembersOf(Colliding(), known, KeyStruct(name).fields) == [Field("n", "n", EInt(0), false)]
    ensures Plannable(Colliding(), known, KeyStruct(name)) && Leads(Colliding(), KeyStruct(name)) == {}
  {
    hide EncodingOf, LeadsTo, MemberOf, TagFine;
    var fields := KeyStruct(name).fields;
    assert fields[..0] == [];
    IntPlan(known);
    KeyMember(known, fields[0]);
    assert MembersOf(Colliding(), known, []) == [];
    var ms := [Field("n", "n", EInt(0), false)];
    assert ms[..0] == [] && NamedOf([]) == [];
    assert |NamedOf(ms)| == 1;
    assert MembersFine(Colliding(), known, fields);
    assert LeadsTo(fields[0].ty, Colliding().resolve) == {};
  }

  lemma {:induction false} CollidingPaths()
    ensures Colliding().asked[0] == KeyStruct("ID") && Colliding().asked[1] == KeyStruct("Id")
    ensures PathOf(KeyStruct("ID")) == "m.ID" && PathOf(KeyStruct("Id")) == "m.Id" && "m.ID" != "m.Id" && "ID" != "Id"
    ensures Paths(Colliding().asked) == {"m.ID", "m.Id"}
    ensures !Twinned(Colliding().asked, KeyStruct("ID")) && !Twinned(Colliding().asked, KeyStruct("Id"))
  {
    var asked := Colliding().asked;
    assert asked[0] == KeyStruct("ID") && asked[1] == KeyStruct("Id");
    assert PathOf(asked[0]) == "m.ID" && PathOf(asked[1]) == "m.Id";
    assert "m.ID"[3] == 'D' && "m.Id"[3] == 'd' && "ID"[1] == 'D' && "Id"[1] == 'd';
  }

  lemma {:induction false} CollidingSensible()
    ensures Sensible(Colliding())
  {
    var w := Colliding();
    CollidingPaths();
    assert forall i :: 0 <= i < |w.asked| ==> |w.asked[i].fields| == 1;
  }

  lemma {:induction false} CollidingSurvive()
    ensures Survivors(Colliding()) == {"m.ID", "m.Id"}
  {
    hide Plannable, Leads, Twinned, Survivors;
    var w := Colliding();
    var all := Paths(w.asked);
    CollidingPaths();
    KeyPlan("ID", all);
    KeyPlan("Id", all);
    forall i | 0 <= i < |w.asked| ensures Planned(w, w.asked[i]) && Leads(w, w.asked[i]) <= all {
      assert w.asked[i] == if i == 0 then KeyStruct("ID") else KeyStruct("Id");
    }
    assert Supported(w, all);
    SurvivorsGreatest(w);
  }

  /** Each codec of that plan is of one number, under its own name. */
  lemma {:induction false} CollidingTable(p: Codecs, name: string)
    requires p == Table(CodecsIn(Colliding(), Colliding().asked, Survivors(Colliding()))) && name in p
    ensures p[name].members == [Field("n", "n", EInt(0), false)]
  {
    var w := Colliding();
    var s := WhoseCodec(w, name);
    CollidingPaths();
    assert s == KeyStruct("ID") || s == KeyStruct("Id");
    KeyPlan(s.name, Paths(w.asked));
  }

  /** The planner accepts two structs that share no name and whose decoders do. */
  lemma {:induction false} CollidingIsAccepted()
    ensures var p := Table(CodecsIn(Colliding(), Colliding().asked, Survivors(Colliding())));
      Accepted(p) && Linked(p) && !Apart(p)
  {
    hide CodecsIn, Table, Survivors, PathOf, Accepted, Snake;
    var w := Colliding();
    CollidingPaths();
    CollidingSurvive();
    CollidingSensible();
    PlanIsAccepted(w);
    PlanTable(w);
    var p := Table(CodecsIn(w, w.asked, Survivors(w)));
    assert "ID" in p && "Id" in p;
    forall n | n in p ensures Decodable(p[n]) && forall i :: 0 <= i < |p[n].members| ==>
      Readable(p, p[n].members[i].encoding) {
      CollidingTable(p, n);
    }
    SnakeCollides();
  }
}
