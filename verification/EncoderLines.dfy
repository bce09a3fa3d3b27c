/**
 `encode` and `encoder` as they are written: methods that put lines on a
 `Body`.  Each is proved to put down exactly the statements the model of the
 encoder is about, laid out by indentation.
 */
module EncoderLines {
  import opened JsonModel
  import opened EmitBody
  import opened EmitEncoder

  /** One line of an encoder. */
  datatype Head =
    | Plain(s: Stmt)
    | IfSet(test: Expr)
    | Otherwise
    | IfWorth(kind: Test, of: Expr)
    | IfUp(flag: Name, want: bool)
    | ForItem(item: Name, of: Expr)
    | ForEntry(entry: Name, of: Expr)
    | KeepKey(keys: Name, entry: Name)
    | ForKey(key: Name, keys: Name)
    | Def(func: Func)

  predicate Opens(h: Head) {
    h.IfSet? || h.Otherwise? || h.IfWorth? || h.IfUp? || h.ForItem? || h.ForEntry? || h.ForKey? || h.Def?
  }

  /** The lines of a statement, and the blocks they are in. */
  function Outline(s: Stmt): seq<Node<Head>> {
    match s
    case Pass => []
    case Then(a, b) => Outline(a) + Outline(b)
    case IfHolds(test, yes, no) => [Node(IfSet(test), Outline(yes)), Node(Otherwise, Outline(no))]
    case IfTest(kind, of, body) => [Node(IfWorth(kind, of), Outline(body))]
    case IfFlag(x, want, body) => [Node(IfUp(x, want), Outline(body))]
    case ForItems(item, of, body) => [Node(ForItem(item, of), Outline(body))]
    case ForKeys(key, keys, body) => [Node(ForKey(key, keys), Outline(body))]
    case CollectKeys(x, entry, of) => [Node(ForEntry(entry, of), [Node(KeepKey(x, entry), [])])]
    case _ => [Node(Plain(s), [])]
  }

  function Lines(s: Stmt, depth: nat): seq<Line<Head>> {
    Layout(Outline(s), depth)
  }

  lemma {:induction false} LinesThen(a: Stmt, b: Stmt, d: nat)
    ensures Lines(Then(a, b), d) == Lines(a, d) + Lines(b, d)
  {
    LayoutConcat(Outline(a), Outline(b), d);
  }

  lemma {:induction false} LinesOne(h: Head, inner: seq<Node<Head>>, d: nat)
    ensures Layout([Node(h, inner)], d) == [Line(d, h)] + Layout(inner, d + 1)
  {
    var nodes := [Node(h, inner)];
    assert nodes[1..] == [];
    assert Layout(nodes[1..], d) == [];
  }

  lemma {:induction false} LinesIfHolds(test: Expr, yes: Stmt, no: Stmt, d: nat)
    ensures Lines(IfHolds(test, yes, no), d)
      == [Line(d, IfSet(test))] + Lines(yes, d + 1) + [Line(d, Otherwise)] + Lines(no, d + 1)
  {
    var a, b := [Node(IfSet(test), Outline(yes))], [Node(Otherwise, Outline(no))];
    LayoutConcat(a, b, d);
    LinesOne(IfSet(test), Outline(yes), d);
    LinesOne(Otherwise, Outline(no), d);
    assert Outline(IfHolds(test, yes, no)) == a + b;
  }

  lemma {:induction false} PlainLine(s: Stmt, d: nat)
    requires Outline(s) == [Node(Plain(s), [])]
    ensures Lines(s, d) == [Line(d, Plain(s))]
  {
    LinesOne(Plain(s), [], d);
  }

  // --- the loops' opening lines -----------------------------------------------------

  lemma {:induction false} CommaLines(first: Name, d: nat)
    ensures Lines(IfFlag(first, false, Append([Comma])), d)
      == [Line(d, IfUp(first, false)), Line(d + 1, Plain(Append([Comma])))]
    ensures Lines(SetFlag(first, false), d) == [Line(d, Plain(SetFlag(first, false)))]
  {
    LinesOne(IfUp(first, false), Outline(Append([Comma])), d);
    PlainLine(Append([Comma]), d + 1);
    PlainLine(SetFlag(first, false), d);
  }

  /** A comma unless this is the first time round. */
  method CommaUnlessFirst(body: Body<Head>, first: Name)
    modifies body`lines, body`depth
    ensures body.depth == old(body.depth)
    ensures body.lines == old(body.lines)
      + Lines(IfFlag(first, false, Append([Comma])), body.depth) + Lines(SetFlag(first, false), body.depth)
  {
    CommaLines(first, body.depth);
    body.Block(IfUp(first, false));
    body.Put(Plain(Append([Comma])));
    body.Close();
    body.Put(Plain(SetFlag(first, false)));
  }

  lemma {:induction false} CommaThenLines(first: Name, rest: Stmt, d: nat)
    ensures Lines(CommaThen(first, rest), d)
      == Lines(IfFlag(first, false, Append([Comma])), d) + Lines(SetFlag(first, false), d) + Lines(rest, d)
  {
    LinesThen(IfFlag(first, false, Append([Comma])), Then(SetFlag(first, false), rest), d);
    LinesThen(SetFlag(first, false), rest, d);
  }

  lemma {:induction false} ListLines(expr: Expr, n: nat, each: Stmt, d: nat)
    ensures Lines(ListStmt(expr, n, each), d)
      == [Line(d, Plain(Append([LBracket]))), Line(d, Plain(DeclFlag(Temp("first", n + 2), true))),
          Line(d, ForItem(Temp("item", n + 1), expr))]
         + Lines(CommaThen(Temp("first", n + 2), each), d + 1)
         + [Line(d, Plain(Append([RBracket])))]
  {
    var decl, turn := DeclFlag(Temp("first", n + 2), true), CommaThen(Temp("first", n + 2), each);
    var loop := ForItems(Temp("item", n + 1), expr, turn);
    assert Lines(loop, d) == [Line(d, ForItem(Temp("item", n + 1), expr))] + Lines(turn, d + 1) by {
      LinesOne(ForItem(Temp("item", n + 1), expr), Outline(turn), d);
    }
    LinesThen(Then(Append([LBracket]), decl), Then(loop, Append([RBracket])), d);
    LinesThen(Append([LBracket]), decl, d);
    LinesThen(loop, Append([RBracket]), d);
    PlainLine(Append([LBracket]), d);
    PlainLine(decl, d);
    PlainLine(Append([RBracket]), d);
  }

  lemma {:induction false} GatherLines(expr: Expr, keys: Name, entry: Name, d: nat)
    ensures Lines(GatherKeys(expr, keys, entry), d)
      == [Line(d, Plain(DeclKeys(keys))), Line(d, ForEntry(entry, expr)), Line(d + 1, KeepKey(keys, entry)),
          Line(d, Plain(SortKeys(keys)))]
  {
    var collect := CollectKeys(keys, entry, expr);
    LinesThen(DeclKeys(keys), Then(collect, SortKeys(keys)), d);
    LinesThen(collect, SortKeys(keys), d);
    PlainLine(DeclKeys(keys), d);
    PlainLine(SortKeys(keys), d);
    LinesOne(ForEntry(entry, expr), [Node(KeepKey(keys, entry), [])], d);
    LinesOne(KeepKey(keys, entry), [], d + 1);
  }

  lemma {:induction false} DictLines(expr: Expr, n: nat, each: Stmt, d: nat)
    ensures Lines(DictStmt(expr, n, each), d)
      == [Line(d, Plain(Append([LBrace])))]
         + Lines(GatherKeys(expr, Temp("keys", n + 1), Temp("entry", n + 2)), d)
         + [Line(d, Plain(DeclFlag(Temp("first", n + 4), true))),
            Line(d, ForKey(Temp("key", n + 3), Temp("keys", n + 1)))]
         + Lines(EntryStmt(n, each), d + 1)
         + [Line(d, Plain(Append([RBrace])))]
  {
    hide Layout, GatherKeys, EntryStmt;
    var gather := GatherKeys(expr, Temp("keys", n + 1), Temp("entry", n + 2));
    var decl := DeclFlag(Temp("first", n + 4), true);
    var loop := ForKeys(Temp("key", n + 3), Temp("keys", n + 1), EntryStmt(n, each));
    LinesThen(Then(Append([LBrace]), gather), Then(decl, Then(loop, Append([RBrace]))), d);
    LinesThen(Append([LBrace]), gather, d);
    LinesThen(decl, Then(loop, Append([RBrace])), d);
    LinesThen(loop, Append([RBrace]), d);
    PlainLine(Append([LBrace]), d);
    PlainLine(decl, d);
    PlainLine(Append([RBrace]), d);
    LinesOne(ForKey(Temp("key", n + 3), Temp("keys", n + 1)), Outline(EntryStmt(n, each)), d);
  }

  lemma {:induction false} EntryLines(n: nat, each: Stmt, d: nat)
    ensures Lines(EntryStmt(n, each), d)
      == Lines(IfFlag(Temp("first", n + 4), false, Append([Comma])), d) + Lines(SetFlag(Temp("first", n + 4), false), d)
         + [Line(d, Plain(AppendText(Temp("key", n + 3)))), Line(d, Plain(Append([Colon])))] + Lines(each, d)
  {
    var text := AppendText(Temp("key", n + 3));
    CommaThenLines(Temp("first", n + 4), Then(text, Then(Append([Colon]), each)), d);
    LinesThen(text, Then(Append([Colon]), each), d);
    LinesThen(Append([Colon]), each, d);
    PlainLine(text, d);
    PlainLine(Append([Colon]), d);
  }

  // --- the emitter --------------------------------------------------------------------

  /** `encode` */
  method EmitValue(body: Body<Head>, what: Encoding, expr: Expr)
    modifies body
    ensures body.depth == old(body.depth) && body.temporaries == old(body.temporaries) + Temps(what)
    ensures body.lines == old(body.lines) + Lines(Encode(what, expr, old(body.temporaries)), body.depth)
    decreases what, 0
  {
    match what
    case EOptional(a) => EmitOptional(body, a, expr);
    case EList(a) => EmitList(body, a, expr);
    case EDict(a) => EmitDict(body, a, expr);
    case EStruct(name) =>
      PlainLine(Call(EncoderOf(name), expr), body.depth);
      body.Put(Plain(Call(EncoderOf(name), expr)));
    case _ =>
      PlainLine(AppendScalar(what, expr), body.depth);
      body.Put(Plain(AppendScalar(what, expr)));
  }

  method EmitOptional(body: Body<Head>, a: Encoding, expr: Expr)
    modifies body
    ensures body.depth == old(body.depth) && body.temporaries == old(body.temporaries) + Temps(EOptional(a))
    ensures body.lines == old(body.lines) + Lines(Encode(EOptional(a), expr, old(body.temporaries)), body.depth)
    decreases a, 1
  {
    hide Lines, Layout;
    ghost var yes, no := Encode(a, Payload(expr), body.temporaries), Append([NullWord]);
    LinesIfHolds(expr, yes, no, body.depth);
    PlainLine(no, body.depth + 1);
    body.Block(IfSet(expr));
    EmitValue(body, a, Payload(expr));
    body.Close();
    body.Block(Otherwise);
    body.Put(Plain(Append([NullWord])));
    body.Close();
    assert body.lines == old(body.lines)
      + ([Line(body.depth, IfSet(expr))] + Lines(yes, body.depth + 1) + [Line(body.depth, Otherwise)]
         + Lines(no, body.depth + 1));
  }

  /** The inside of a list's loop. */
  method EmitItem(body: Body<Head>, a: Encoding, item: Name, first: Name)
    modifies body
    ensures body.depth == old(body.depth) && body.temporaries == old(body.temporaries) + Temps(a)
    ensures body.lines == old(body.lines)
      + Lines(CommaThen(first, Encode(a, Var(item), old(body.temporaries))), body.depth)
    decreases a, 1
  {
    hide Lines, Layout, Outline, Encode, EntryStmt, CommaThen;
    CommaThenLines(first, Encode(a, Var(item), body.temporaries), body.depth);
    CommaUnlessFirst(body, first);
    EmitValue(body, a, Var(item));
  }

  method EmitList(body: Body<Head>, a: Encoding, expr: Expr)
    modifies body
    ensures body.depth == old(body.depth) && body.temporaries == old(body.temporaries) + Temps(EList(a))
    ensures body.lines == old(body.lines) + Lines(Encode(EList(a), expr, old(body.temporaries)), body.depth)
    decreases a, 2
  {
    hide Lines, Layout, Outline, ListStmt, CommaThen, DictStmt;
    ghost var n := body.temporaries;
    var i := body.Fresh();
    var f := body.Fresh();
    ListLines(expr, n, Encode(a, Var(Temp("item", n + 1)), n + 2), body.depth);
    body.Put(Plain(Append([LBracket])));
    body.Put(Plain(DeclFlag(Temp("first", f), true)));
    body.Block(ForItem(Temp("item", i), expr));
    EmitItem(body, a, Temp("item", i), Temp("first", f));
    body.Close();
    body.Put(Plain(Append([RBracket])));
  }

  method EmitKeys(body: Body<Head>, expr: Expr, keys: Name, entry: Name)
    modifies body`lines, body`depth
    ensures body.depth == old(body.depth)
    ensures body.lines == old(body.lines) + Lines(GatherKeys(expr, keys, entry), body.depth)
  {
    GatherLines(expr, keys, entry, body.depth);
    body.Put(Plain(DeclKeys(keys)));
    body.Block(ForEntry(entry, expr));
    body.Put(KeepKey(keys, entry));
    body.Close();
    body.Put(Plain(SortKeys(keys)));
  }

  /** The inside of a dictionary's loop; `n` is how many temporaries there were before its four. */
  method EmitEntry(body: Body<Head>, a: Encoding, expr: Expr, ghost n: nat, key: Name, first: Name)
    requires key == Temp("key", n + 3) && first == Temp("first", n + 4) && body.temporaries == n + 4
    modifies body
    ensures body.depth == old(body.depth) && body.temporaries == n + 4 + Temps(a)
    ensures body.lines == old(body.lines) + Lines(EntryStmt(n, Encode(a, At(expr, key), n + 4)), body.depth)
    decreases a, 1
  {
    hide Lines, Layout, Outline, Encode, EntryStmt, CommaThen;
    EntryLines(n, Encode(a, At(expr, key), n + 4), body.depth);
    CommaUnlessFirst(body, first);
    body.Put(Plain(AppendText(key)));
    body.Put(Plain(Append([Colon])));
    EmitValue(body, a, At(expr, key));
  }

  method EmitDict(body: Body<Head>, a: Encoding, expr: Expr)
    modifies body
    ensures body.depth == old(body.depth) && body.temporaries == old(body.temporaries) + Temps(EDict(a))
    ensures body.lines == old(body.lines) + Lines(Encode(EDict(a), expr, old(body.temporaries)), body.depth)
    decreases a, 2
  {
    hide Lines, Layout, Outline, ListStmt, CommaThen, DictStmt, GatherKeys, EntryStmt;
    ghost var n := body.temporaries;
    var i := body.Fresh();
    var j := body.Fresh();
    var k := body.Fresh();
    var f := body.Fresh();
    DictLines(expr, n, Encode(a, At(expr, Temp("key", n + 3)), n + 4), body.depth);
    body.Put(Plain(Append([LBrace])));
    EmitKeys(body, expr, Temp("keys", i), Temp("entry", j));
    body.Put(Plain(DeclFlag(Temp("first", f), true)));
    body.Block(ForKey(Temp("key", k), Temp("keys", i)));
    EmitEntry(body, a, expr, n, Temp("key", k), Temp("first", f));
    body.Close();
    body.Put(Plain(Append([RBrace])));
  }

  // --- one struct -----------------------------------------------------------------------

  lemma {:induction false} WrittenLines(m: Member, k: Knowledge, n: nat, d: nat)
    requires m.Field?
    ensures Lines(Then(CommaFor(k), Then(Append([Text(m.json), Colon]), FieldValue(m, n))), d)
      == Lines(CommaFor(k), d) + [Line(d, Plain(Append([Text(m.json), Colon])))] + Lines(FieldValue(m, n), d)
    ensures Lines(CommaFor(k), d)
      == if k.certain then [Line(d, Plain(Append([Comma])))]
         else if k.maybe then [Line(d, IfUp(Wrote, true)), Line(d + 1, Plain(Append([Comma])))]
         else []
  {
    var key := Append([Text(m.json), Colon]);
    LinesThen(CommaFor(k), Then(key, FieldValue(m, n)), d);
    LinesThen(key, FieldValue(m, n), d);
    PlainLine(key, d);
    PlainLine(Append([Comma]), d);
    PlainLine(Append([Comma]), d + 1);
    LinesOne(IfUp(Wrote, true), Outline(Append([Comma])), d);
  }

  /** The comma before a field, placed by what is known of the fields before it. */
  method EmitComma(body: Body<Head>, m: Member, k: Knowledge)
    requires m.Field?
    modifies body`lines, body`depth
    ensures body.depth == old(body.depth) && body.lines == old(body.lines) + Lines(CommaFor(k), body.depth)
  {
    WrittenLines(m, k, 0, body.depth);
    if k.certain {
      body.Put(Plain(Append([Comma])));
    } else if k.maybe {
      body.Block(IfUp(Wrote, true));
      body.Put(Plain(Append([Comma])));
      body.Close();
    }
  }

  /** A field's comma, key and value. */
  method EmitWritten(body: Body<Head>, m: Member, k: Knowledge)
    requires m.Field?
    modifies body
    ensures body.depth == old(body.depth) && body.temporaries == old(body.temporaries) + FieldTemps(m)
    ensures body.lines == old(body.lines)
      + Lines(Then(CommaFor(k), Then(Append([Text(m.json), Colon]), FieldValue(m, old(body.temporaries)))), body.depth)
  {
    WrittenLines(m, k, body.temporaries, body.depth);
    EmitComma(body, m, k);
    body.Put(Plain(Append([Text(m.json), Colon])));
    var at := Attr(Var(ValueArg), m.name);
    if m.omitempty && m.encoding.EOptional? {
      EmitValue(body, m.encoding.arg, Payload(at));
    } else {
      EmitValue(body, m.encoding, at);
    }
  }

  lemma {:induction false} OmittedLines(m: Member, last: bool, k: Knowledge, n: nat, d: nat)
    requires m.Field? && m.omitempty
    ensures Lines(FieldStmt(m, last, k, n), d)
      == [Line(d, IfWorth(EmptyTest(m.encoding), Attr(Var(ValueArg), m.name)))]
         + Lines(Then(CommaFor(k), Then(Append([Text(m.json), Colon]), FieldValue(m, n))), d + 1)
         + (if !k.certain && !last then [Line(d + 1, Plain(SetFlag(Wrote, true)))] else [])
  {
    var written := Then(CommaFor(k), Then(Append([Text(m.json), Colon]), FieldValue(m, n)));
    var note := if !k.certain && !last then SetFlag(Wrote, true) else Pass;
    LinesOne(IfWorth(EmptyTest(m.encoding), Attr(Var(ValueArg), m.name)), Outline(Then(written, note)), d);
    LinesThen(written, note, d + 1);
    PlainLine(SetFlag(Wrote, true), d + 1);
  }

  /** One turn of the loop over the fields: what it writes, and what it learns about commas. */
  method EmitField(body: Body<Head>, m: Member, last: bool, k: Knowledge) returns (next: Knowledge)
    requires m.Field?
    modifies body
    ensures body.depth == old(body.depth) && body.temporaries == old(body.temporaries) + FieldTemps(m)
    ensures body.lines == old(body.lines) + Lines(FieldStmt(m, last, k, old(body.temporaries)), body.depth)
    ensures next == Learn(k, m)
  {
    if m.omitempty {
      OmittedLines(m, last, k, body.temporaries, body.depth);
      body.Block(IfWorth(EmptyTest(m.encoding), Attr(Var(ValueArg), m.name)));
    }
    EmitWritten(body, m, k);
    if !m.omitempty { return Knowledge(true, false); }
    next := k;
    if !k.certain {
      if !last { body.Put(Plain(SetFlag(Wrote, true))); }
      next := Knowledge(false, true);
    }
    body.Close();
  }

  lemma {:induction false} FieldsLines(ms: seq<Member>, i: nat, k: Knowledge, n: nat, d: nat, done: seq<Line<Head>>)
    requires i < |ms| && forall j :: 0 <= j < |ms| ==> ms[j].Field?
    ensures done + Lines(Fields(ms, i, k, n), d)
      == done + Lines(FieldStmt(ms[i], i == |ms| - 1, k, n), d)
         + Lines(Fields(ms, i + 1, Learn(k, ms[i]), n + FieldTemps(ms[i])), d)
  {
    LinesThen(FieldStmt(ms[i], i == |ms| - 1, k, n), Fields(ms, i + 1, Learn(k, ms[i]), n + FieldTemps(ms[i])), d);
  }

  /** The loop over the fields, with what it knows about commas in two variables. */
  method EmitFields(body: Body<Head>, ms: seq<Member>)
    requires body.temporaries == 0 && forall j :: 0 <= j < |ms| ==> ms[j].Field?
    modifies body
    ensures body.depth == old(body.depth)
    ensures body.lines == old(body.lines) + Lines(Fields(ms, 0, Knowledge(false, false), 0), body.depth)
  {
    var k := Knowledge(false, false);
    ghost var whole := body.lines + Lines(Fields(ms, 0, k, 0), body.depth);
    for i := 0 to |ms|
      invariant body.depth == old(body.depth)
      invariant body.lines + Lines(Fields(ms, i, k, body.temporaries), body.depth) == whole
    {
      FieldsLines(ms, i, k, body.temporaries, body.depth, body.lines);
      k := EmitField(body, ms[i], i == |ms| - 1, k);
    }
  }

  lemma {:induction false} BodyLines(c: Codec, d: nat)
    ensures var ms := Encoded(c.members);
      Lines(EncoderBody(c), d) == [Line(d, Plain(Append([LBrace])))]
        + (if NeedsWrote(ms) then [Line(d, Plain(DeclFlag(Wrote, false)))] else [])
        + Lines(Fields(ms, 0, Knowledge(false, false), 0), d) + [Line(d, Plain(Append([RBrace])))]
  {
    var ms := Encoded(c.members);
    var decl := if NeedsWrote(ms) then DeclFlag(Wrote, false) else Pass;
    var fields := Fields(ms, 0, Knowledge(false, false), 0);
    LinesThen(Append([LBrace]), Then(decl, Then(fields, Append([RBrace]))), d);
    LinesThen(decl, Then(fields, Append([RBrace])), d);
    LinesThen(fields, Append([RBrace]), d);
    PlainLine(Append([LBrace]), d);
    PlainLine(Append([RBrace]), d);
    PlainLine(DeclFlag(Wrote, false), d);
  }

  /** `next((i for i, m in enumerate(members) if not m.omitempty), len(members))` */
  method FirstCertain(ms: seq<Member>) returns (i: nat)
    requires forall j :: 0 <= j < |ms| ==> ms[j].Field?
    ensures i <= |ms| && (i < |ms| ==> !ms[i].omitempty) && forall j :: 0 <= j < i ==> ms[j].omitempty
  {
    i := 0;
    while i < |ms| && ms[i].omitempty
      invariant i <= |ms| && forall j :: 0 <= j < i ==> ms[j].omitempty
    {
      i := i + 1;
    }
  }

  /** What is between the `def` and the end. */
  method EmitStruct(body: Body<Head>, c: Codec)
    requires body.temporaries == 0
    modifies body
    ensures body.depth == old(body.depth) && body.lines == old(body.lines) + Lines(EncoderBody(c), body.depth)
  {
    var ms := Encoded(c.members);
    BodyLines(c, body.depth);
    body.Put(Plain(Append([LBrace])));
    var firstCertain := FirstCertain(ms);
    if firstCertain > 0 && |ms| > 1 { body.Put(Plain(DeclFlag(Wrote, false))); }
    EmitFields(body, ms);
    body.Put(Plain(Append([RBrace])));
  }

  /** `encoder`, from the `def` of `_encode_<struct>` on. */
  method WriteEncoder(c: Codec) returns (lines: seq<Line<Head>>)
    ensures lines == Layout([Node(Def(EncoderOf(c.name)), Outline(EncoderBody(c)))], 0)
    ensures Nest(lines, 0) == [Node(Def(EncoderOf(c.name)), Outline(EncoderBody(c)))]
  {
    var body := new Body<Head>();
    body.Block(Def(EncoderOf(c.name)));
    EmitStruct(body, c);
    body.Close();
    lines := body.lines;
    LinesOne(Def(EncoderOf(c.name)), Outline(EncoderBody(c)), 0);
    NestLayout([Node(Def(EncoderOf(c.name)), Outline(EncoderBody(c)))], 0);
  }

  // --- no block is empty ------------------------------------------------------------------

  /** Every line that opens a block has one under it, and no other line does. */
  ghost predicate Solid(nodes: seq<Node<Head>>)
    decreases nodes
  {
    forall i :: 0 <= i < |nodes| ==> (Opens(nodes[i].head) <==> nodes[i].body != []) && Solid(nodes[i].body)
  }

  lemma {:induction false} SolidConcat(a: seq<Node<Head>>, b: seq<Node<Head>>)
    requires Solid(a) && Solid(b)
    ensures Solid(a + b)
  {
  }

  lemma {:induction false} EncodeSolid(what: Encoding, expr: Expr, n: nat)
    ensures Outline(Encode(what, expr, n)) != [] && Solid(Outline(Encode(what, expr, n)))
    decreases what
  {
    match what
    case EOptional(a) =>
      EncodeSolid(a, Payload(expr), n);
      assert Outline(Append([NullWord])) == [Node(Plain(Append([NullWord])), [])];
    case EList(a) =>
      EncodeSolid(a, Var(Temp("item", n + 1)), n + 2);
      CommaSolid(Temp("first", n + 2), Encode(a, Var(Temp("item", n + 1)), n + 2));
      ListSolid(expr, n, Encode(a, Var(Temp("item", n + 1)), n + 2));
    case EDict(a) =>
      EncodeSolid(a, At(expr, Temp("key", n + 3)), n + 4);
      DictSolid(expr, n, Encode(a, At(expr, Temp("key", n + 3)), n + 4));
    case _ =>
  }

  lemma {:induction false} CommaSolid(first: Name, rest: Stmt)
    requires Solid(Outline(rest))
    ensures Solid(Outline(CommaThen(first, rest))) && Outline(CommaThen(first, rest)) != []
  {
    var test := IfFlag(first, false, Append([Comma]));
    assert Outline(Append([Comma])) == [Node(Plain(Append([Comma])), [])];
    assert Outline(test) == [Node(IfUp(first, false), Outline(Append([Comma])))];
    assert Outline(Then(SetFlag(first, false), rest)) == Outline(SetFlag(first, false)) + Outline(rest);
    SolidConcat(Outline(SetFlag(first, false)), Outline(rest));
    SolidConcat(Outline(test), Outline(Then(SetFlag(first, false), rest)));
  }

  lemma {:induction false} ListSolid(expr: Expr, n: nat, each: Stmt)
    requires Solid(Outline(CommaThen(Temp("first", n + 2), each))) && Outline(CommaThen(Temp("first", n + 2),
          each)) != []
    ensures Solid(Outline(ListStmt(expr, n, each))) && Outline(ListStmt(expr, n, each)) != []
  {
    var decl, turn := DeclFlag(Temp("first", n + 2), true), CommaThen(Temp("first", n + 2), each);
    var loop := ForItems(Temp("item", n + 1), expr, turn);
    assert Outline(loop) == [Node(ForItem(Temp("item", n + 1), expr), Outline(turn))];
    assert Outline(Then(Append([LBracket]), decl)) == [Node(Plain(Append([LBracket])), [])] + [Node(Plain(decl), [])];
    assert Outline(Then(loop, Append([RBracket]))) == Outline(loop) + [Node(Plain(Append([RBracket])), [])];
    SolidConcat(Outline(loop), [Node(Plain(Append([RBracket])), [])]);
    SolidConcat(Outline(Then(Append([LBracket]), decl)), Outline(Then(loop, Append([RBracket]))));
  }

  lemma {:induction false} SolidLine(s: Stmt)
    requires Outline(s) == [Node(Plain(s), [])]
    ensures Solid(Outline(s))
  {
  }

  lemma {:induction false} SolidBlock(h: Head, inner: seq<Node<Head>>)
    requires Opens(h) && inner != [] && Solid(inner)
    ensures Solid([Node(h, inner)])
  {
  }

  lemma {:induction false} SolidThen(a: Stmt, b: Stmt)
    requires Solid(Outline(a)) && Solid(Outline(b))
    ensures Solid(Outline(Then(a, b)))
  {
    SolidConcat(Outline(a), Outline(b));
  }

  lemma {:induction false} DictSolid(expr: Expr, n: nat, each: Stmt)
    requires Solid(Outline(each))
    ensures Solid(Outline(DictStmt(expr, n, each))) && Outline(DictStmt(expr, n, each)) != []
  {
    hide Solid, GatherKeys, CommaThen;
    var keys, key, first := Temp("keys", n + 1), Temp("key", n + 3), Temp("first", n + 4);
    var gather := GatherKeys(expr, keys, Temp("entry", n + 2));
    var turn := EntryStmt(n, each);
    var loop := ForKeys(key, keys, turn);
    SolidLine(Append([Colon]));
    SolidThen(Append([Colon]), each);
    SolidLine(AppendText(key));
    SolidThen(AppendText(key), Then(Append([Colon]), each));
    CommaSolid(first, Then(AppendText(key), Then(Append([Colon]), each)));
    SolidBlock(ForKey(key, keys), Outline(turn));
    SolidLine(Append([RBrace]));
    SolidThen(loop, Append([RBrace]));
    SolidLine(DeclFlag(first, true));
    SolidThen(DeclFlag(first, true), Then(loop, Append([RBrace])));
    GatherSolid(expr, keys, Temp("entry", n + 2));
    SolidLine(Append([LBrace]));
    SolidThen(Append([LBrace]), gather);
    SolidThen(Then(Append([LBrace]), gather), Then(DeclFlag(first, true), Then(loop, Append([RBrace]))));
  }

  lemma {:induction false} GatherSolid(expr: Expr, keys: Name, entry: Name)
    ensures Solid(Outline(GatherKeys(expr, keys, entry)))
  {
    var collect := CollectKeys(keys, entry, expr);
    assert Outline(collect) == [Node(ForEntry(entry, expr), [Node(KeepKey(keys, entry), [])])];
    SolidConcat(Outline(collect), Outline(SortKeys(keys)));
    SolidConcat(Outline(DeclKeys(keys)), Outline(Then(collect, SortKeys(keys))));
  }

  lemma {:induction false} FieldSolid(m: Member, last: bool, k: Knowledge, n: nat)
    requires m.Field?
    ensures Solid(Outline(FieldStmt(m, last, k, n)))
  {
    hide Encode;
    var at := Attr(Var(ValueArg), m.name);
    var key := Append([Text(m.json), Colon]);
    if m.omitempty && m.encoding.EOptional? {
      EncodeSolid(m.encoding.arg, Payload(at), n);
    } else {
      EncodeSolid(m.encoding, at, n);
    }
    assert Solid(Outline(CommaFor(k))) by {
      assert Outline(Append([Comma])) == [Node(Plain(Append([Comma])), [])];
    }
    SolidConcat(Outline(key), Outline(FieldValue(m, n)));
    SolidConcat(Outline(CommaFor(k)), Outline(Then(key, FieldValue(m, n))));
    var written := Then(CommaFor(k), Then(key, FieldValue(m, n)));
    assert Outline(written) == Outline(CommaFor(k)) + (Outline(key) + Outline(FieldValue(m, n)));
    var note := if !k.certain && !last then SetFlag(Wrote, true) else Pass;
    SolidConcat(Outline(written), Outline(note));
  }

  lemma {:induction false} FieldsSolid(ms: seq<Member>, i: nat, k: Knowledge, n: nat)
    requires i <= |ms| && forall j :: 0 <= j < |ms| ==> ms[j].Field?
    ensures Solid(Outline(Fields(ms, i, k, n)))
    decreases |ms| - i
  {
    if i < |ms| {
      FieldSolid(ms[i], i == |ms| - 1, k, n);
      FieldsSolid(ms, i + 1, Learn(k, ms[i]), n + FieldTemps(ms[i]));
      SolidConcat(Outline(FieldStmt(ms[i], i == |ms| - 1, k, n)),
                  Outline(Fields(ms, i + 1, Learn(k, ms[i]), n + FieldTemps(ms[i]))));
    }
  }

  /** Every encoder is a program whose every block holds something. */
  lemma {:induction false} EncoderSolid(c: Codec)
    ensures Solid([Node(Def(EncoderOf(c.name)), Outline(EncoderBody(c)))])
  {
    var ms := Encoded(c.members);
    var decl := if NeedsWrote(ms) then DeclFlag(Wrote, false) else Pass;
    var fields := Fields(ms, 0, Knowledge(false, false), 0);
    FieldsSolid(ms, 0, Knowledge(false, false), 0);
    SolidConcat(Outline(fields), Outline(Append([RBrace])));
    SolidConcat(Outline(decl), Outline(Then(fields, Append([RBrace]))));
    SolidConcat(Outline(Append([LBrace])), Outline(Then(decl, Then(fields, Append([RBrace])))));
  }
}
