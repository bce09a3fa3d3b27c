/**
 The run time flag of an encoder, which tells a field whether one before it was
 written: where there is one, and where a comma is settled without it.
 */
module EncoderFlag {
  import opened JsonModel
  import opened EmitEncoder

  /** The statement declares, sets or tests the flag somewhere. */
  predicate Mentions(s: Stmt) {
    match s
    case Then(a, b) => Mentions(a) || Mentions(b)
    case IfHolds(_, yes, no) => Mentions(yes) || Mentions(no)
    case IfTest(_, _, body) => Mentions(body)
    case DeclFlag(x, _) => x == Wrote
    case SetFlag(x, _) => x == Wrote
    case IfFlag(x, _, body) => x == Wrote || Mentions(body)
    case ForItems(_, _, body) => Mentions(body)
    case ForKeys(_, _, body) => Mentions(body)
    case _ => false
  }

  lemma {:induction false} Mentioning()
    ensures forall a, b :: Mentions(Then(a, b)) <==> Mentions(a) || Mentions(b)
    ensures forall toks :: !Mentions(Append(toks))
    ensures forall x, want, body :: Mentions(IfFlag(x, want, body)) <==> x == Wrote || Mentions(body)
    ensures forall x, on :: Mentions(SetFlag(x, on)) <==> x == Wrote
    ensures forall x, on :: Mentions(DeclFlag(x, on)) <==> x == Wrote
    ensures !Mentions(Pass)
  {
  }

  lemma {:induction false} LoopHeadDoesNot(first: Name, rest: Stmt)
    requires first != Wrote && !Mentions(rest)
    ensures !Mentions(CommaThen(first, rest))
  {
    Mentioning();
  }

  lemma {:induction false} ListDoesNot(expr: Expr, n: nat, each: Stmt)
    requires !Mentions(each)
    ensures !Mentions(ListStmt(expr, n, each))
  {
    LoopHeadDoesNot(Temp("first", n + 2), each);
    hide CommaThen;
    Mentioning();
  }

  lemma {:induction false} DictDoesNot(expr: Expr, n: nat, each: Stmt)
    requires !Mentions(each)
    ensures !Mentions(DictStmt(expr, n, each))
  {
    hide CommaThen;
    Mentioning();
    LoopHeadDoesNot(Temp("first", n + 4), Then(AppendText(Temp("key", n + 3)), Then(Append([Colon]), each)));
  }

  /** Writing a value needs other flags, and never this one. */
  lemma {:induction false} ValuesDoNot(what: Encoding, expr: Expr, n: nat)
    ensures !Mentions(Encode(what, expr, n))
  {
    hide ListStmt, DictStmt;
    match what
    case EOptional(a) =>
      Mentioning();
      ValuesDoNot(a, Payload(expr), n);
    case EList(a) =>
      ValuesDoNot(a, Var(Temp("item", n + 1)), n + 2);
      ListDoesNot(expr, n, Encode(a, Var(Temp("item", n + 1)), n + 2));
    case EDict(a) =>
      ValuesDoNot(a, At(expr, Temp("key", n + 3)), n + 4);
      DictDoesNot(expr, n, Encode(a, At(expr, Temp("key", n + 3)), n + 4));
    case _ =>
  }

  ghost predicate AllFields(ms: seq<Member>) {
    forall j :: 0 <= j < |ms| ==> ms[j].Field?
  }

  /** One of the first fields is always written. */
  ghost predicate Certain(ms: seq<Member>, i: nat)
    requires i <= |ms| && AllFields(ms)
  {
    exists j :: 0 <= j < i && !ms[j].omitempty
  }

  /** What the generator knows when it comes to field `i`. */
  function Known(ms: seq<Member>, i: nat): Knowledge
    requires i <= |ms| && forall j :: 0 <= j < |ms| ==> ms[j].Field?
  {
    if i == 0 then Knowledge(false, false) else Learn(Known(ms, i - 1), ms[i - 1])
  }

  /** That an earlier field is always written, or else that there is an earlier one at all. */
  lemma {:induction false} KnownExactly(ms: seq<Member>, i: nat)
    requires i <= |ms| && AllFields(ms)
    ensures Known(ms, i).certain <==> Certain(ms, i)
    ensures !Known(ms, i).certain ==> (Known(ms, i).maybe <==> i > 0)
  {
    if i > 0 {
      KnownExactly(ms, i - 1);
      assert Certain(ms, i) <==> Certain(ms, i - 1) || !ms[i - 1].omitempty;
    }
  }

  /**
   A comma is written outright behind a field that is always written, tested
   for behind fields that may all be missing, and left out before the first.
   */
  lemma {:induction false} CommaExactly(ms: seq<Member>, i: nat)
    requires i < |ms| && AllFields(ms)
    ensures CommaFor(Known(ms, i)) ==
      if Certain(ms, i) then Append([Comma])
      else if i > 0 then IfFlag(Wrote, true, Append([Comma]))
      else Pass
  {
    KnownExactly(ms, i);
  }

  lemma {:induction false} FieldMentions(m: Member, last: bool, k: Knowledge, n: nat)
    requires m.Field?
    ensures Mentions(FieldStmt(m, last, k, n)) <==> !k.certain && (k.maybe || (m.omitempty && !last))
  {
    hide Encode;
    Mentioning();
    var at := Attr(Var(ValueArg), m.name);
    ValuesDoNot(m.encoding, at, n);
    if m.omitempty && m.encoding.EOptional? { ValuesDoNot(m.encoding.arg, Payload(at), n); }
    assert !Mentions(FieldValue(m, n));
    var written := Then(CommaFor(k), Then(Append([Text(m.json), Colon]), FieldValue(m, n)));
    assert Mentions(CommaFor(k)) <==> !k.certain && k.maybe;
    assert Mentions(written) <==> Mentions(CommaFor(k));
  }

  lemma {:induction false} FieldsMention(ms: seq<Member>, i: nat, n: nat)
    requires i <= |ms| && AllFields(ms)
    ensures Mentions(Fields(ms, i, Known(ms, i), n)) <==>
      !Certain(ms, i) && i < |ms| && (i > 0 || (|ms| > 1 && ms[0].omitempty))
    decreases |ms| - i
  {
    hide FieldStmt;
    KnownExactly(ms, i);
    if i < |ms| {
      var k := Known(ms, i);
      FieldMentions(ms[i], i == |ms| - 1, k, n);
      FieldsMention(ms, i + 1, n + FieldTemps(ms[i]));
      assert Known(ms, i + 1) == Learn(k, ms[i]);
      assert Certain(ms, i + 1) <==> Certain(ms, i) || !ms[i].omitempty;
    }
  }

  /**
   The flag is declared exactly where some statement of the fields sets or tests
   it: in structs that open with a field that may be left out and have another.
   */
  lemma {:induction false} FlagExactly(ms: seq<Member>)
    requires AllFields(ms)
    ensures NeedsWrote(ms) <==> Mentions(Fields(ms, 0, Knowledge(false, false), 0))
  {
    FieldsMention(ms, 0, 0);
  }
}
