/**
 `value`, `into`, `fill` and `decoder` as they are written: methods that put
 lines on a `Body`.  Each is proved to put down exactly the statements the
 model of the decoder is about, laid out by indentation.
 */
module DecoderLines {
  import opened JsonModel
  import opened CodecNames
  import opened EmitBody
  import opened EmitDecoder

  /** One line of a decoder. */
  datatype Head =
    | Plain(s: Stmt)
    | UnlessTaken(t: Token)
    | IfTaken(t: Token)
    | UnlessNullTaken
    | WhileTrue
    | IfKeyIs(key: Name, json: string)
    | ElifKeyIs(key: Name, json: string)
    | Otherwise
    | UnlessHeld(x: Name)
    | Opening(func: string, gives: string)

  predicate Opens(h: Head) { !h.Plain? }

  /** The lines of a statement, and the blocks they are in. */
  function Outline(s: Stmt): seq<Node<Head>>
    decreases s, 0
  {
    match s
    case Pass => []
    case Then(a, b) => Outline(a) + Outline(b)
    case UnlessAccept(t, body) => [Node(UnlessTaken(t), Outline(body))]
    case IfAccept(t, body) => [Node(IfTaken(t), Outline(body))]
    case UnlessNull(body) => [Node(UnlessNullTaken, Outline(body))]
    case Forever(body) => [Node(WhileTrue, Outline(body))]
    case UnlessSet(x, body) => [Node(UnlessHeld(x), Outline(body))]
    case IfKey(key, json, yes, no) => [Node(IfKeyIs(key, json), Outline(yes))] + Rest(no)
    case _ => [Node(Plain(s), [])]
  }

  /** What follows an `if` over the key: an `elif` for each further key, and an `else`. */
  function Rest(s: Stmt): seq<Node<Head>>
    decreases s, 1
  {
    match s
    case IfKey(key, json, yes, no) => [Node(ElifKeyIs(key, json), Outline(yes))] + Rest(no)
    case _ => [Node(Otherwise, Outline(s))]
  }

  function Lines(s: Stmt, depth: nat): seq<Line<Head>> {
    Layout(Outline(s), depth)
  }

  lemma {:induction false} LinesThen(a: Stmt, b: Stmt, d: nat)
    ensures Lines(Then(a, b), d) == Lines(a, d) + Lines(b, d)
  {
    LayoutConcat(Outline(a), Outline(b), d);
  }

  lemma {:induction false} LinesOne(h: Head, inner: seq<Node<Head>>, d: nat)
    ensures Layout([Node(h, inner)], d) == [Line(d, h)] + Layout(inner, d + 1)
  {
    var nodes := [Node(h, inner)];
    assert nodes[1..] == [];
    assert Layout(nodes[1..], d) == [];
  }

  lemma {:induction false} PlainLine(s: Stmt, d: nat)
    requires Outline(s) == [Node(Plain(s), [])]
    ensures Lines(s, d) == [Line(d, Plain(s))]
  {
    LinesOne(Plain(s), [], d);
  }

  lemma {:induction false} PlainThen(s: Stmt, rest: Stmt, d: nat, done: seq<Line<Head>>)
    requires Outline(s) == [Node(Plain(s), [])]
    ensures done + Lines(Then(s, rest), d) == done + [Line(d, Plain(s))] + Lines(rest, d)
  {
    LinesThen(s, rest, d);
    PlainLine(s, d);
  }

  // --- levels and loops -----------------------------------------------------------------

  lemma {:induction false} BracketedLines(left: Token, right: Token, turn: Stmt, d: nat)
    ensures Lines(Bracketed(left, right, turn), d)
      == [Line(d, Plain(Enter)), Line(d, Plain(ExpectToken(left))), Line(d, UnlessTaken(right)), Line(d + 1, WhileTrue)]
         + Lines(turn, d + 2)
         + [Line(d + 1, Plain(ExpectToken(right))), Line(d, Plain(LeaveLevel))]
  {
    var inner := Then(Forever(turn), ExpectToken(right));
    LinesThen(Then(Enter, ExpectToken(left)), Then(UnlessAccept(right, inner), LeaveLevel), d);
    LinesThen(Enter, ExpectToken(left), d);
    LinesThen(UnlessAccept(right, inner), LeaveLevel, d);
    PlainLine(Enter, d);
    PlainLine(ExpectToken(left), d);
    PlainLine(LeaveLevel, d);
    InnerLines(right, turn, d);
  }

  lemma {:induction false} InnerLines(right: Token, turn: Stmt, d: nat)
    ensures Lines(UnlessAccept(right, Then(Forever(turn), ExpectToken(right))), d)
      == [Line(d, UnlessTaken(right)), Line(d + 1, WhileTrue)] + Lines(turn, d + 2)
        + [Line(d + 1, Plain(ExpectToken(right)))]
  {
    var inner := Then(Forever(turn), ExpectToken(right));
    LinesOne(UnlessTaken(right), Outline(inner), d);
    LinesThen(Forever(turn), ExpectToken(right), d + 1);
    LinesOne(WhileTrue, Outline(turn), d + 1);
    PlainLine(ExpectToken(right), d + 1);
  }

  /** The same, after the lines already there. */
  lemma {:induction false} LevelLines(left: Token, right: Token, turn: Stmt, d: nat, done: seq<Line<Head>>)
    ensures done + Lines(Bracketed(left, right, turn), d)
      == done
         + [Line(d, Plain(Enter)), Line(d, Plain(ExpectToken(left))), Line(d, UnlessTaken(right)),
            Line(d + 1, WhileTrue)]
         + Lines(turn, d + 2)
         + [Line(d + 1, Plain(ExpectToken(right))), Line(d, Plain(LeaveLevel))]
  {
    BracketedLines(left, right, turn, d);
    Assoc(done,
          [Line(d, Plain(Enter)), Line(d, Plain(ExpectToken(left))), Line(d, UnlessTaken(right)),
           Line(d + 1, WhileTrue)],
          Lines(turn, d + 2), [Line(d + 1, Plain(ExpectToken(right))), Line(d, Plain(LeaveLevel))]);
  }

  lemma {:induction false} AgainLines(d: nat)
    ensures Lines(AgainAfterComma(), d)
      == [Line(d, IfTaken(Comma)), Line(d + 1, Plain(Continue)), Line(d, Plain(Break))]
  {
    LinesThen(IfAccept(Comma, Continue), Break, d);
    LinesOne(IfTaken(Comma), Outline(Continue), d);
    PlainLine(Continue, d + 1);
    PlainLine(Break, d);
  }

  /** From the level's first line to the inside of its loop. */
  method OpenLevel(body: Body<Head>, left: Token, right: Token)
    modifies body`lines, body`depth
    ensures body.depth == old(body.depth) + 2
    ensures body.lines == old(body.lines)
      + [Line(old(body.depth), Plain(Enter)), Line(old(body.depth), Plain(ExpectToken(left))),
         Line(old(body.depth), UnlessTaken(right)), Line(old(body.depth) + 1, WhileTrue)]
  {
    body.Put(Plain(Enter));
    body.Put(Plain(ExpectToken(left)));
    body.Block(UnlessTaken(right));
    body.Block(WhileTrue);
  }

  /** From the end of the loop's work to the level's last line. */
  method CloseLevel(body: Body<Head>, right: Token)
    requires body.depth >= 2
    modifies body`lines, body`depth
    ensures body.depth == old(body.depth) - 2
    ensures body.lines == old(body.lines) + Lines(AgainAfterComma(), old(body.depth))
      + [Line(body.depth + 1, Plain(ExpectToken(right))), Line(body.depth, Plain(LeaveLevel))]
  {
    AgainLines(body.depth);
    body.Block(IfTaken(Comma));
    body.Put(Plain(Continue));
    body.Close();
    body.Put(Plain(Break));
    body.Close();
    body.Put(Plain(ExpectToken(right)));
    body.Close();
    body.Put(Plain(LeaveLevel));
  }

  // --- reading one value ------------------------------------------------------------------

  lemma {:induction false} ItemTurnLines(x: Name, n: nat, read: Stmt, d: nat)
    ensures Lines(ItemTurn(x, n, read), d)
      == Lines(read, d) + [Line(d, Plain(AppendTo(x, Temp("item", n + 1))))] + Lines(AgainAfterComma(), d)
  {
    var add := AppendTo(x, Temp("item", n + 1));
    LinesThen(read, Then(add, AgainAfterComma()), d);
    LinesThen(add, AgainAfterComma(), d);
    PlainLine(add, d);
  }

  lemma {:induction false} EntryTurnLines(x: Name, n: nat, read: Stmt, d: nat)
    ensures Lines(EntryTurn(x, n, read), d)
      == [Line(d, Plain(DeclareKey(Temp("key", n + 1)))), Line(d, Plain(ExpectToken(Colon)))]
         + Lines(read, d) + [Line(d, Plain(StoreAt(x, Temp("key", n + 1),
                                                   Temp("held", n + 2))))] + Lines(AgainAfterComma(), d)
  {
    hide Layout, AgainAfterComma;
    var key, store := DeclareKey(Temp("key", n + 1)), StoreAt(x, Temp("key", n + 1), Temp("held", n + 2));
    LinesThen(Then(key, ExpectToken(Colon)), Then(read, Then(store, AgainAfterComma())), d);
    LinesThen(key, ExpectToken(Colon), d);
    LinesThen(read, Then(store, AgainAfterComma()), d);
    LinesThen(store, AgainAfterComma(), d);
    PlainLine(key, d);
    PlainLine(ExpectToken(Colon), d);
    PlainLine(store, d);
  }

  lemma {:induction false} OptionalLines(a: Encoding, x: Name, n: nat, d: nat)
    ensures Lines(Fill(EOptional(a), x, n), d)
      == [Line(d, UnlessNullTaken)] + Lines(ReadInto(a, Temp("held", n + 1), n + 1), d + 1)
         + [Line(d + 1, Plain(AssignVar(x, Temp("held", n + 1))))]
  {
    var held := Temp("held", n + 1);
    var inner := Then(ReadInto(a, held, n + 1), AssignVar(x, held));
    LinesOne(UnlessNullTaken, Outline(inner), d);
    LinesThen(ReadInto(a, held, n + 1), AssignVar(x, held), d + 1);
    PlainLine(AssignVar(x, held), d + 1);
  }

  /** `value` */
  method EmitRead(body: Body<Head>, what: Encoding, x: Name)
    modifies body
    ensures body.depth == old(body.depth) && body.temporaries == old(body.temporaries) + Temps(what)
    ensures body.lines == old(body.lines) + Lines(ReadInto(what, x, old(body.temporaries)), body.depth)
    decreases what, 3
  {
    if !Composite(what) {
      PlainLine(DeclareRead(x, what), body.depth);
      body.Put(Plain(DeclareRead(x, what)));
      return;
    }
    LinesThen(Declare(x, what), Fill(what, x, body.temporaries), body.depth);
    PlainLine(Declare(x, what), body.depth);
    body.Put(Plain(Declare(x, what)));
    EmitFill(body, what, x);
  }

  /** `fill` */
  method EmitFill(body: Body<Head>, what: Encoding, x: Name)
    requires Composite(what)
    modifies body
    ensures body.depth == old(body.depth) && body.temporaries == old(body.temporaries) + Temps(what)
    ensures body.lines == old(body.lines) + Lines(Fill(what, x, old(body.temporaries)), body.depth)
    decreases what, 2
  {
    match what
    case EOptional(a) => EmitOptional(body, a, x);
    case EList(a) => EmitList(body, a, x);
    case EDict(a) => EmitDict(body, a, x);
  }

  method EmitOptional(body: Body<Head>, a: Encoding, x: Name)
    modifies body
    ensures body.depth == old(body.depth) && body.temporaries == old(body.temporaries) + Temps(EOptional(a))
    ensures body.lines == old(body.lines) + Lines(Fill(EOptional(a), x, old(body.temporaries)), body.depth)
    decreases a, 5
  {
    hide Lines, Layout, Outline, ReadInto;
    OptionalLines(a, x, body.temporaries, body.depth);
    body.Block(UnlessNullTaken);
    var held := body.Fresh();
    EmitRead(body, a, Temp("held", held));
    body.Put(Plain(AssignVar(x, Temp("held", held))));
    body.Close();
  }

  /** The inside of a list's loop, up to the comma. */
  method EmitItem(body: Body<Head>, a: Encoding, x: Name, item: Name)
    modifies body
    ensures body.depth == old(body.depth) && body.temporaries == old(body.temporaries) + Temps(a)
    ensures body.lines == old(body.lines) + Lines(ReadInto(a, item, old(body.temporaries)), body.depth)
      + [Line(body.depth, Plain(AppendTo(x, item)))]
    decreases a, 4
  {
    hide Lines, Layout, Outline, Bracketed, ItemTurn, EntryTurn, ReadInto, AgainAfterComma;
    EmitRead(body, a, item);
    body.Put(Plain(AppendTo(x, item)));
  }

  method EmitList(body: Body<Head>, a: Encoding, x: Name)
    modifies body
    ensures body.depth == old(body.depth) && body.temporaries == old(body.temporaries) + Temps(EList(a))
    ensures body.lines == old(body.lines) + Lines(Fill(EList(a), x, old(body.temporaries)), body.depth)
    decreases a, 5
  {
    hide Lines, Layout, Outline, Bracketed, ItemTurn, EntryTurn, ReadInto, AgainAfterComma;
    ghost var n, d := body.temporaries, body.depth;
    ghost var read := ReadInto(a, Temp("item", n + 1), n + 1);
    LevelLines(LBracket, RBracket, ItemTurn(x, n, read), d, body.lines);
    ItemTurnLines(x, n, read, d + 2);
    var item := body.Fresh();
    OpenLevel(body, LBracket, RBracket);
    EmitItem(body, a, x, Temp("item", item));
    CloseLevel(body, RBracket);
  }

  /** The inside of a dictionary's loop, up to the comma. */
  method EmitEntry(body: Body<Head>, a: Encoding, x: Name, key: Name, held: Name)
    modifies body
    ensures body.depth == old(body.depth) && body.temporaries == old(body.temporaries) + Temps(a)
    ensures body.lines == old(body.lines)
      + ([Line(body.depth, Plain(DeclareKey(key))), Line(body.depth, Plain(ExpectToken(Colon)))]
         + Lines(ReadInto(a, held, old(body.temporaries)), body.depth)
         + [Line(body.depth, Plain(StoreAt(x, key, held)))])
    decreases a, 4
  {
    hide Lines, Layout, Outline, Bracketed, ItemTurn, EntryTurn, ReadInto, AgainAfterComma;
    body.Put(Plain(DeclareKey(key)));
    body.Put(Plain(ExpectToken(Colon)));
    EmitRead(body, a, held);
    body.Put(Plain(StoreAt(x, key, held)));
  }

  method EmitDict(body: Body<Head>, a: Encoding, x: Name)
    modifies body
    ensures body.depth == old(body.depth) && body.temporaries == old(body.temporaries) + Temps(EDict(a))
    ensures body.lines == old(body.lines) + Lines(Fill(EDict(a), x, old(body.temporaries)), body.depth)
    decreases a, 5
  {
    hide Lines, Layout, Outline, Bracketed, ItemTurn, EntryTurn, ReadInto, AgainAfterComma;
    ghost var n, d := body.temporaries, body.depth;
    ghost var read := ReadInto(a, Temp("held", n + 2), n + 2);
    LevelLines(LBrace, RBrace, EntryTurn(x, n, read), d, body.lines);
    EntryTurnLines(x, n, read, d + 2);
    var key := body.Fresh();
    var held := body.Fresh();
    OpenLevel(body, LBrace, RBrace);
    EmitEntry(body, a, x, Temp("key", key), Temp("held", held));
    CloseLevel(body, RBrace);
  }

  /** `into` */
  method EmitInto(body: Body<Head>, what: Encoding, x: Name)
    modifies body
    ensures body.depth == old(body.depth) && body.temporaries == old(body.temporaries) + ReplaceTemps(what)
    ensures body.lines == old(body.lines) + Lines(Replace(what, x, old(body.temporaries)), body.depth)
  {
    if !Composite(what) {
      PlainLine(AssignRead(x, what), body.depth);
      body.Put(Plain(AssignRead(x, what)));
      return;
    }
    ghost var n := body.temporaries;
    LinesThen(ReadInto(what, Temp("held", n + 1), n + 1), AssignVar(x, Temp("held", n + 1)), body.depth);
    PlainLine(AssignVar(x, Temp("held", n + 1)), body.depth);
    var held := body.Fresh();
    EmitRead(body, what, Temp("held", held));
    body.Put(Plain(AssignVar(x, Temp("held", held))));
  }

  // --- one struct --------------------------------------------------------------------------

  lemma {:induction false} SlotsLines(ms: seq<Member>, d: nat, done: seq<Line<Head>>)
    requires ms != [] && forall i :: 0 <= i < |ms| ==> ms[i].Field?
    ensures done + Lines(Slots(ms), d)
      == done + [Line(d, Plain(Declare(Slot(ms[0].name), SlotType(ms[0].encoding))))] + Lines(Slots(ms[1..]), d)
  {
    PlainThen(Declare(Slot(ms[0].name), SlotType(ms[0].encoding)), Slots(ms[1..]), d, done);
  }

  method EmitSlots(body: Body<Head>, ms: seq<Member>)
    requires forall i :: 0 <= i < |ms| ==> ms[i].Field?
    modifies body`lines
    ensures body.lines == old(body.lines) + Lines(Slots(ms), body.depth)
  {
    ghost var whole := body.lines + Lines(Slots(ms), body.depth);
    for i := 0 to |ms|
      invariant body.lines + Lines(Slots(ms[i..]), body.depth) == whole
    {
      SlotsLines(ms[i..], body.depth, body.lines);
      if Absent(ms[i].encoding) {
        body.Put(Plain(Declare(Slot(ms[i].name), ms[i].encoding)));
      } else {
        body.Put(Plain(Declare(Slot(ms[i].name), EOptional(ms[i].encoding))));
      }
    }
  }

  /** What is still to be written of the chain over the keys, before field `i`. */
  function ChainFrom(ms: seq<Member>, i: nat, n: nat): seq<Node<Head>>
    requires i <= |ms| && forall j :: 0 <= j < |ms| ==> ms[j].Field?
  {
    if i == 0 then Outline(Dispatch(ms, n)) else Rest(Dispatch(ms[i..], n))
  }

  lemma {:induction false} DispatchStep(ms: seq<Member>, n: nat)
    requires ms != [] && forall j :: 0 <= j < |ms| ==> ms[j].Field?
    ensures Dispatch(ms, n)
      == IfKey(KeyVar, ms[0].json, Replace(ms[0].encoding, Slot(ms[0].name), n),
               Dispatch(ms[1..], n + ReplaceTemps(ms[0].encoding)))
  {
  }

  lemma {:induction false} ChainNode(json: string, yes: Stmt, no: Stmt)
    ensures Outline(IfKey(KeyVar, json, yes, no)) == [Node(IfKeyIs(KeyVar, json), Outline(yes))] + Rest(no)
    ensures Rest(IfKey(KeyVar, json, yes, no)) == [Node(ElifKeyIs(KeyVar, json), Outline(yes))] + Rest(no)
  {
  }

  lemma {:induction false} ChainStep(ms: seq<Member>, i: nat, n: nat)
    requires i < |ms| && forall j :: 0 <= j < |ms| ==> ms[j].Field?
    ensures ChainFrom(ms, i, n)
      == [Node(if i == 0 then IfKeyIs(KeyVar, ms[i].json) else ElifKeyIs(KeyVar, ms[i].json),
               Outline(Replace(ms[i].encoding, Slot(ms[i].name), n)))]
         + ChainFrom(ms, i + 1, n + ReplaceTemps(ms[i].encoding))
  {
    var rest := ms[i..];
    assert ms[0..] == ms && rest[1..] == ms[i + 1..] && rest[0] == ms[i];
    DispatchStep(rest, n);
    ChainNode(ms[i].json, Replace(ms[i].encoding, Slot(ms[i].name), n),
              Dispatch(rest[1..], n + ReplaceTemps(ms[i].encoding)));
  }

  lemma {:induction false} NodeLines(h: Head, inner: seq<Node<Head>>, rest: seq<Node<Head>>, d: nat,
                                     done: seq<Line<Head>>)
    ensures done + Layout([Node(h, inner)] + rest, d) == done + [Line(d, h)] + Layout(inner, d + 1) + Layout(rest, d)
  {
    LayoutConcat([Node(h, inner)], rest, d);
    LinesOne(h, inner, d);
    Assoc(done, [Line(d, h)], Layout(inner, d + 1), Layout(rest, d));
  }

  /** What field `i` adds to the chain. */
  lemma {:induction false} ChainLines(ms: seq<Member>, i: nat, n: nat, d: nat, done: seq<Line<Head>>)
    requires i < |ms| && forall j :: 0 <= j < |ms| ==> ms[j].Field?
    ensures done + Layout(ChainFrom(ms, i, n), d)
      == done + [Line(d, if i == 0 then IfKeyIs(KeyVar, ms[i].json) else ElifKeyIs(KeyVar, ms[i].json))]
         + Lines(Replace(ms[i].encoding, Slot(ms[i].name), n), d + 1)
         + Layout(ChainFrom(ms, i + 1, n + ReplaceTemps(ms[i].encoding)), d)
  {
    ChainStep(ms, i, n);
    NodeLines(if i == 0 then IfKeyIs(KeyVar, ms[i].json) else ElifKeyIs(KeyVar, ms[i].json),
              Outline(Replace(ms[i].encoding, Slot(ms[i].name), n)),
              ChainFrom(ms, i + 1, n + ReplaceTemps(ms[i].encoding)), d, done);
  }

  lemma {:induction false} ChainEnds(ms: seq<Member>, n: nat, d: nat)
    requires forall j :: 0 <= j < |ms| ==> ms[j].Field?
    ensures Layout(ChainFrom(ms, |ms|, n), d)
      == if ms == [] then [Line(d, Plain(UnknownKeyCall(KeyVar)))]
         else [Line(d, Otherwise), Line(d + 1, Plain(UnknownKeyCall(KeyVar)))]
  {
    assert ms[|ms|..] == [];
    PlainLine(UnknownKeyCall(KeyVar), d);
    PlainLine(UnknownKeyCall(KeyVar), d + 1);
    LinesOne(Otherwise, Outline(UnknownKeyCall(KeyVar)), d);
  }

  /** One `if` or `elif` of the chain. */
  method EmitBranch(body: Body<Head>, begun: bool, m: Member)
    requires m.Field?
    modifies body
    ensures body.depth == old(body.depth) && body.temporaries == old(body.temporaries) + ReplaceTemps(m.encoding)
    ensures body.lines == old(body.lines)
      + [Line(body.depth, if begun then ElifKeyIs(KeyVar, m.json) else IfKeyIs(KeyVar, m.json))]
      + Lines(Replace(m.encoding, Slot(m.name), old(body.temporaries)), body.depth + 1)
  {
    hide Layout, Outline, Replace, ChainFrom, Lines;
    body.Block(if begun then ElifKeyIs(KeyVar, m.json) else IfKeyIs(KeyVar, m.json));
    EmitInto(body, m.encoding, Slot(m.name));
    body.Close();
  }

  /** The loop that writes the chain, up to its last `elif`. */
  method EmitBranches(body: Body<Head>, ms: seq<Member>)
    requires forall i :: 0 <= i < |ms| ==> ms[i].Field?
    modifies body
    ensures body.depth == old(body.depth)
    ensures body.lines + Layout(ChainFrom(ms, |ms|, body.temporaries), body.depth)
      == old(body.lines) + Layout(ChainFrom(ms, 0, old(body.temporaries)), old(body.depth))
  {
    hide Layout, Outline, Replace, ChainFrom, Lines;
    var begun := false;
    ghost var d := body.depth;
    ghost var whole := body.lines + Layout(ChainFrom(ms, 0, body.temporaries), d);
    for i := 0 to |ms|
      invariant body.depth == d && (begun <==> i > 0)
      invariant whole == body.lines + Layout(ChainFrom(ms, i, body.temporaries), d)
    {
      ghost var n, done := body.temporaries, body.lines;
      EmitBranch(body, begun, ms[i]);
      begun := true;
      ChainLines(ms, i, n, d, done);
    }
  }

  /** The chain over the keys, with an `else` when there was an `if`. */
  method EmitDispatch(body: Body<Head>, ms: seq<Member>)
    requires forall i :: 0 <= i < |ms| ==> ms[i].Field?
    modifies body
    ensures body.depth == old(body.depth)
    ensures body.lines == old(body.lines) + Lines(Dispatch(ms, old(body.temporaries)), body.depth)
  {
    hide Layout;
    EmitBranches(body, ms);
    ChainEnds(ms, body.temporaries, body.depth);
    if |ms| > 0 {
      body.Block(Otherwise);
      body.Put(Plain(UnknownKeyCall(KeyVar)));
      body.Close();
    } else {
      body.Put(Plain(UnknownKeyCall(KeyVar)));
    }
  }

  lemma {:induction false} TurnLines(work: Stmt, d: nat)
    ensures Lines(Then(Then(DeclareKey(KeyVar), ExpectToken(Colon)), Then(work, AgainAfterComma())), d)
      == [Line(d, Plain(DeclareKey(KeyVar))), Line(d, Plain(ExpectToken(Colon)))]
         + Lines(work, d) + Lines(AgainAfterComma(), d)
  {
    LinesThen(Then(DeclareKey(KeyVar), ExpectToken(Colon)), Then(work, AgainAfterComma()), d);
    LinesThen(DeclareKey(KeyVar), ExpectToken(Colon), d);
    LinesThen(work, AgainAfterComma(), d);
    PlainLine(DeclareKey(KeyVar), d);
    PlainLine(ExpectToken(Colon), d);
  }

  lemma {:induction false} ChecksLines(c: string, ms: seq<Member>, d: nat, done: seq<Line<Head>>)
    requires ms != [] && forall i :: 0 <= i < |ms| ==> ms[i].Field?
    ensures done + Lines(Checks(c, ms), d)
      == done
         + (if Absent(ms[0].encoding) then []
            else [Line(d, UnlessHeld(Slot(ms[0].name))), Line(d + 1, Plain(RaiseMissing(c, ms[0].json)))])
         + Lines(Checks(c, ms[1..]), d)
  {
    if !Absent(ms[0].encoding) {
      var miss := RaiseMissing(c, ms[0].json);
      LinesThen(UnlessSet(Slot(ms[0].name), miss), Checks(c, ms[1..]), d);
      LinesOne(UnlessHeld(Slot(ms[0].name)), Outline(miss), d);
      PlainLine(miss, d + 1);
    }
  }

  lemma {:induction false} ArgsNext(ms: seq<Member>, i: nat, done: seq<Arg>)
    requires i < |ms| && forall i :: 0 <= i < |ms| ==> ms[i].Field?
    ensures done + Args(ms[i..])
      == done + [if Absent(ms[i].encoding) then Moved(Slot(ms[i].name)) else Taken(Slot(ms[i].name))]
        + Args(ms[i + 1..])
  {
    assert ms[i..][1..] == ms[i + 1..];
  }

  /** One turn of the loop: the test, if the field must be there, and its argument. */
  method EmitCheck(body: Body<Head>, c: string, m: Member) returns (argument: Arg)
    requires m.Field?
    modifies body`lines, body`depth
    ensures body.depth == old(body.depth)
    ensures body.lines == old(body.lines)
      + (if Absent(m.encoding) then []
         else [Line(body.depth, UnlessHeld(Slot(m.name))), Line(body.depth + 1, Plain(RaiseMissing(c, m.json)))])
    ensures argument == if Absent(m.encoding) then Moved(Slot(m.name)) else Taken(Slot(m.name))
  {
    if Absent(m.encoding) { return Moved(Slot(m.name)); }
    body.Block(UnlessHeld(Slot(m.name)));
    body.Put(Plain(RaiseMissing(c, m.json)));
    body.Close();
    argument := Taken(Slot(m.name));
  }

  /** The tests for what must be there, gathering the constructor's arguments on the way. */
  method EmitChecks(body: Body<Head>, c: string, ms: seq<Member>) returns (arguments: seq<Arg>)
    requires forall i :: 0 <= i < |ms| ==> ms[i].Field?
    modifies body`lines, body`depth
    ensures body.depth == old(body.depth)
    ensures body.lines == old(body.lines) + Lines(Checks(c, ms), body.depth)
    ensures arguments == Args(ms)
  {
    arguments := [];
    assert ms[0..] == ms;
    ghost var whole := body.lines + Lines(Checks(c, ms), body.depth);
    for i := 0 to |ms|
      invariant body.depth == old(body.depth)
      invariant body.lines + Lines(Checks(c, ms[i..]), body.depth) == whole
      invariant arguments + Args(ms[i..]) == Args(ms)
    {
      assert ms[i..][1..] == ms[i + 1..];
      ChecksLines(c, ms[i..], body.depth, body.lines);
      ArgsNext(ms, i, arguments);
      var argument := EmitCheck(body, c, ms[i]);
      arguments := arguments + [argument];
    }
  }

  lemma {:induction false} FourLines(a: Stmt, b: Stmt, c: Stmt, last: Stmt, d: nat, done: seq<Line<Head>>)
    requires Outline(last) == [Node(Plain(last), [])]
    ensures done + Lines(Then(Then(a, b), Then(c, last)), d)
      == done + Lines(a, d) + Lines(b, d) + Lines(c, d) + [Line(d, Plain(last))]
  {
    hide Layout, Outline;
    LinesThen(Then(a, b), Then(c, last), d);
    LinesThen(a, b, d);
    LinesThen(c, last, d);
    PlainLine(last, d);
  }

  lemma {:induction false} BodyLines(c: Codec, d: nat, done: seq<Line<Head>>)
    requires Decodable(c)
    ensures done + Lines(DecoderBody(c), d)
      == done + Lines(Slots(c.members), d) + Lines(Bracketed(LBrace, RBrace, MemberTurn(c.members)), d)
         + Lines(Checks(c.name, c.members), d)
         + [Line(d, Plain(Build(c.name, FieldNames(c.members), Args(c.members))))]
  {
    FourLines(Slots(c.members), Bracketed(LBrace, RBrace, MemberTurn(c.members)), Checks(c.name, c.members),
              Build(c.name, FieldNames(c.members), Args(c.members)), d, done);
  }

  /** The inside of the loop over the members, up to the comma. */
  method EmitMember(body: Body<Head>, ms: seq<Member>)
    requires forall i :: 0 <= i < |ms| ==> ms[i].Field?
    modifies body
    ensures body.depth == old(body.depth)
    ensures body.lines == old(body.lines)
      + [Line(body.depth, Plain(DeclareKey(KeyVar))), Line(body.depth, Plain(ExpectToken(Colon)))]
      + Lines(Dispatch(ms, old(body.temporaries)), body.depth)
  {
    hide Lines, Layout, Outline, Bracketed, Dispatch;
    body.Put(Plain(DeclareKey(KeyVar)));
    body.Put(Plain(ExpectToken(Colon)));
    EmitDispatch(body, ms);
  }

  /** The object itself: its brackets, and the loop over its members. */
  method EmitMembers(body: Body<Head>, ms: seq<Member>)
    requires body.temporaries == 0 && forall i :: 0 <= i < |ms| ==> ms[i].Field?
    modifies body
    ensures body.depth == old(body.depth)
    ensures body.lines == old(body.lines) + Lines(Bracketed(LBrace, RBrace, MemberTurn(ms)), body.depth)
  {
    hide Lines, Layout, Outline, Bracketed, Dispatch;
    LevelLines(LBrace, RBrace, MemberTurn(ms), body.depth, body.lines);
    TurnLines(Dispatch(ms, 0), body.depth + 2);
    OpenLevel(body, LBrace, RBrace);
    EmitMember(body, ms);
    CloseLevel(body, RBrace);
  }

  /** What is between the `def` and the end. */
  method EmitStruct(body: Body<Head>, c: Codec)
    requires body.temporaries == 0 && Decodable(c)
    modifies body
    ensures body.depth == old(body.depth) && body.lines == old(body.lines) + Lines(DecoderBody(c), body.depth)
  {
    hide Lines, Layout, Outline, Bracketed, Dispatch;
    BodyLines(c, body.depth, body.lines);
    EmitSlots(body, c.members);
    EmitMembers(body, c.members);
    var arguments := EmitChecks(body, c.name, c.members);
    body.Put(Plain(Build(c.name, FieldNames(c.members), arguments)));
  }

  /** `decoder`, from the `def` of `_decode_<struct>` on. */
  method WriteDecoder(c: Codec) returns (lines: seq<Line<Head>>)
    requires Decodable(c)
    ensures lines == Layout([Node(Opening(Snake(c.name), c.name), Outline(DecoderBody(c)))], 0)
    ensures Nest(lines, 0) == [Node(Opening(Snake(c.name), c.name), Outline(DecoderBody(c)))]
  {
    hide Layout, Outline;
    var body := new Body<Head>();
    body.Block(Opening(Snake(c.name), c.name));
    EmitStruct(body, c);
    body.Close();
    lines := body.lines;
    LinesOne(Opening(Snake(c.name), c.name), Outline(DecoderBody(c)), 0);
    NestLayout([Node(Opening(Snake(c.name), c.name), Outline(DecoderBody(c)))], 0);
  }

  // --- no block is empty --------------------------------------------------------------------

  /** Every line that opens a block has one under it, and no other line does. */
  ghost predicate Solid(nodes: seq<Node<Head>>)
    decreases nodes
  {
    forall i :: 0 <= i < |nodes| ==> (Opens(nodes[i].head) <==> nodes[i].body != []) && Solid(nodes[i].body)
  }

  /** A statement that writes at least one line, with no empty block in it. */
  ghost predicate Sturdy(s: Stmt) {
    Outline(s) != [] && Solid(Outline(s))
  }

  lemma {:induction false} SolidConcat(a: seq<Node<Head>>, b: seq<Node<Head>>)
    requires Solid(a) && Solid(b)
    ensures Solid(a + b)
  {
  }

  lemma {:induction false} SturdyThen(a: Stmt, b: Stmt)
    requires Solid(Outline(a)) && Solid(Outline(b)) && (Outline(a) != [] || Outline(b) != [])
    ensures Sturdy(Then(a, b))
  {
    SolidConcat(Outline(a), Outline(b));
  }

  lemma {:induction false} AgainSturdy()
    ensures Sturdy(AgainAfterComma())
  {
    assert Sturdy(Continue);
    assert Outline(IfAccept(Comma, Continue)) == [Node(IfTaken(Comma), Outline(Continue))];
    SturdyThen(IfAccept(Comma, Continue), Break);
  }

  lemma {:induction false} BracketedSturdy(left: Token, right: Token, turn: Stmt)
    requires Sturdy(turn)
    ensures Sturdy(Bracketed(left, right, turn))
  {
    assert Outline(Forever(turn)) == [Node(WhileTrue, Outline(turn))];
    SturdyThen(Forever(turn), ExpectToken(right));
    var inner := Then(Forever(turn), ExpectToken(right));
    assert Outline(UnlessAccept(right, inner)) == [Node(UnlessTaken(right), Outline(inner))];
    SturdyThen(UnlessAccept(right, inner), LeaveLevel);
    SturdyThen(Enter, ExpectToken(left));
    SturdyThen(Then(Enter, ExpectToken(left)), Then(UnlessAccept(right, inner), LeaveLevel));
  }

  lemma {:induction false} ReadSturdy(what: Encoding, x: Name, n: nat)
    ensures Sturdy(ReadInto(what, x, n))
    decreases what, 1
  {
    if Composite(what) {
      FillSturdy(what, x, n);
      SturdyThen(Declare(x, what), Fill(what, x, n));
    }
  }

  lemma {:induction false} SturdyLine(s: Stmt)
    requires Outline(s) == [Node(Plain(s), [])]
    ensures Sturdy(s)
  {
  }

  lemma {:induction false} SturdyBlock(s: Stmt, h: Head, body: Stmt)
    requires Outline(s) == [Node(h, Outline(body))] && Opens(h) && Sturdy(body)
    ensures Sturdy(s)
  {
  }

  lemma {:induction false} FillSturdy(what: Encoding, x: Name, n: nat)
    requires Composite(what)
    ensures Sturdy(Fill(what, x, n))
    decreases what, 0
  {
    hide ReadInto, AgainAfterComma, Solid, Bracketed;
    match what
    case EOptional(a) =>
      var held := Temp("held", n + 1);
      ReadSturdy(a, held, n + 1);
      SturdyLine(AssignVar(x, held));
      SturdyThen(ReadInto(a, held, n + 1), AssignVar(x, held));
      SturdyBlock(Fill(what, x, n), UnlessNullTaken, Then(ReadInto(a, held, n + 1), AssignVar(x, held)));
    case EList(a) =>
      var read, add := ReadInto(a, Temp("item", n + 1), n + 1), AppendTo(x, Temp("item", n + 1));
      ReadSturdy(a, Temp("item", n + 1), n + 1);
      AgainSturdy();
      SturdyLine(add);
      SturdyThen(add, AgainAfterComma());
      SturdyThen(read, Then(add, AgainAfterComma()));
      BracketedSturdy(LBracket, RBracket, ItemTurn(x, n, read));
    case EDict(a) =>
      var read := ReadInto(a, Temp("held", n + 2), n + 2);
      var key, store := DeclareKey(Temp("key", n + 1)), StoreAt(x, Temp("key", n + 1), Temp("held", n + 2));
      ReadSturdy(a, Temp("held", n + 2), n + 2);
      AgainSturdy();
      SturdyLine(store);
      SturdyThen(store, AgainAfterComma());
      SturdyThen(read, Then(store, AgainAfterComma()));
      SturdyLine(key);
      SturdyLine(ExpectToken(Colon));
      SturdyThen(key, ExpectToken(Colon));
      SturdyThen(Then(key, ExpectToken(Colon)), Then(read, Then(store, AgainAfterComma())));
      BracketedSturdy(LBrace, RBrace, EntryTurn(x, n, read));
  }

  lemma {:induction false} ReplaceSturdy(what: Encoding, x: Name, n: nat)
    ensures Sturdy(Replace(what, x, n))
  {
    if Composite(what) {
      ReadSturdy(what, Temp("held", n + 1), n + 1);
      SturdyThen(ReadInto(what, Temp("held", n + 1), n + 1), AssignVar(x, Temp("held", n + 1)));
    }
  }

  lemma {:induction false} DispatchSturdy(ms: seq<Member>, n: nat)
    requires forall i :: 0 <= i < |ms| ==> ms[i].Field?
    ensures Sturdy(Dispatch(ms, n)) && Solid(Rest(Dispatch(ms, n)))
  {
    if ms == [] {
      assert Outline(UnknownKeyCall(KeyVar)) == [Node(Plain(UnknownKeyCall(KeyVar)), [])];
    } else {
      var into := Replace(ms[0].encoding, Slot(ms[0].name), n);
      var rest := Dispatch(ms[1..], n + ReplaceTemps(ms[0].encoding));
      ReplaceSturdy(ms[0].encoding, Slot(ms[0].name), n);
      DispatchSturdy(ms[1..], n + ReplaceTemps(ms[0].encoding));
      SolidConcat([Node(IfKeyIs(KeyVar, ms[0].json), Outline(into))], Rest(rest));
      SolidConcat([Node(ElifKeyIs(KeyVar, ms[0].json), Outline(into))], Rest(rest));
    }
  }

  lemma {:induction false} EndsSolid(c: string, ms: seq<Member>)
    requires forall i :: 0 <= i < |ms| ==> ms[i].Field?
    ensures Solid(Outline(Slots(ms))) && Solid(Outline(Checks(c, ms)))
  {
    if ms != [] {
      EndsSolid(c, ms[1..]);
      SolidConcat(Outline(Declare(Slot(ms[0].name), SlotType(ms[0].encoding))), Outline(Slots(ms[1..])));
      var miss := RaiseMissing(c, ms[0].json);
      assert Outline(UnlessSet(Slot(ms[0].name), miss)) == [Node(UnlessHeld(Slot(ms[0].name)), Outline(miss))];
      assert Sturdy(miss);
      SolidConcat(Outline(UnlessSet(Slot(ms[0].name), miss)), Outline(Checks(c, ms[1..])));
    }
  }

  lemma {:induction false} MemberTurnSturdy(ms: seq<Member>)
    requires forall i :: 0 <= i < |ms| ==> ms[i].Field?
    ensures Sturdy(MemberTurn(ms))
  {
    DispatchSturdy(ms, 0);
    AgainSturdy();
    SturdyThen(Dispatch(ms, 0), AgainAfterComma());
    SturdyThen(DeclareKey(KeyVar), ExpectToken(Colon));
    SturdyThen(Then(DeclareKey(KeyVar), ExpectToken(Colon)), Then(Dispatch(ms, 0), AgainAfterComma()));
  }

  lemma {:induction false} FourSturdy(a: Stmt, b: Stmt, c: Stmt, last: Stmt)
    requires Solid(Outline(a)) && Sturdy(b) && Solid(Outline(c)) && Sturdy(last)
    ensures Sturdy(Then(Then(a, b), Then(c, last)))
  {
    SturdyThen(a, b);
    SturdyThen(c, last);
    SturdyThen(Then(a, b), Then(c, last));
  }

  /** Every decoder is a program whose every block holds something. */
  lemma {:induction false} DecoderSolid(c: Codec)
    requires Decodable(c)
    ensures Solid([Node(Opening(Snake(c.name), c.name), Outline(DecoderBody(c)))])
  {
    var ms := c.members;
    MemberTurnSturdy(ms);
    BracketedSturdy(LBrace, RBrace, MemberTurn(ms));
    EndsSolid(c.name, ms);
    FourSturdy(Slots(ms), Bracketed(LBrace, RBrace, MemberTurn(ms)), Checks(c.name, ms),
               Build(c.name, FieldNames(ms), Args(ms)));
  }
}
