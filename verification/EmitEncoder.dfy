/**
 The encoder half of the generated file: the statements `encode` and `encoder`
 emit, an interpreter for them, and the proof that running them prints what
 `Print` says.

 The interpreter is strict about variables.  Declaring a name twice in one
 scope, or reading or assigning one that is not in scope, is `IllFormed`, and a
 block's declarations end with the block.  So a run that succeeds is also a
 program the compiler would accept in those respects.
 */
module EmitEncoder {
  import opened Common
  import opened JsonModel
  import opened JsonText
  import opened CodecNames

  // --- the emitted language -----------------------------------------------------

  /** `value`, `wrote`, and the numbered temporaries `Body.fresh` hands out. */
  datatype Name = ValueArg | Wrote | Temp(stem: string, n: nat)

  datatype Expr = Var(x: Name) | Attr(of: Expr, name: string) | Payload(of: Expr) | At(of: Expr, key: Name)

  /** The four spellings of the test `omitempty` turns into. */
  datatype Test = NotEmptyText | HasLength | Holds | NotZero

  /**
   A function of the file as a call finds it: by its name and by the type of its
   argument.  Encoders that share a name are overloads, as `marshal_json` is.
   */
  datatype Func = Func(name: string, takes: string)

  datatype Stmt =
    | Pass
    | Then(a: Stmt, b: Stmt)
    | Append(toks: seq<Token>)
    | AppendScalar(what: Encoding, expr: Expr)
    | AppendText(key: Name)
    | Call(func: Func, arg: Expr)
    | IfHolds(test: Expr, yes: Stmt, no: Stmt)
    | IfTest(kind: Test, of: Expr, body: Stmt)
    | DeclFlag(x: Name, on: bool)
    | SetFlag(x: Name, on: bool)
    | IfFlag(x: Name, want: bool, body: Stmt)
    | DeclKeys(x: Name)
    | CollectKeys(x: Name, entry: Name, of: Expr)
    | SortKeys(x: Name)
    | ForItems(item: Name, of: Expr, body: Stmt)
    | ForKeys(key: Name, keys: Name, body: Stmt)

  type Program = map<Func, Stmt>

  // --- running it -----------------------------------------------------------------

  datatype Local = LValue(v: Value) | LFlag(up: bool) | LText(s: string) | LKeys(ks: seq<string>)

  type Env = map<Name, Local>

  datatype State = State(env: Env, out: seq<Token>)

  /** The order a dictionary is iterated in, which is nobody's business. */
  type Order = set<string> -> seq<string>

  ghost predicate Enumerates(order: Order) {
    forall s: set<string> :: Distinct(order(s)) && forall x :: x in order(s) <==> x in s
  }

  function Eval(e: Expr, env: Env): Option<Value> {
    match e
    case Var(x) => if x in env && env[x].LValue? then Some(env[x].v) else None
    case Attr(of, name) =>
      (match Eval(of, env)
       case Some(VStruct(fields)) => Get(fields, name)
       case _ => None)
    case Payload(of) =>
      (match Eval(of, env)
       case Some(VSome(w)) => Some(w)
       case _ => None)
    case At(of, key) =>
      (match Eval(of, env)
       case Some(VDict(entries)) =>
         if key in env && env[key].LText? then Get(entries, env[key].s) else None
       case _ => None)
  }

  function EvalTest(kind: Test, v: Value): Option<bool> {
    match kind
    case NotEmptyText => if v.VString? then Some(v.s != "") else None
    case HasLength =>
      if v.VList? then Some(|v.items| != 0)
      else if v.VDict? then Some(|v.entries| != 0)
      else if v.VRaw? then Some(|v.toks| != 0)
      else None
    case Holds => if v.VBool? then Some(v.b) else if v.VSome? || v.VNone? then Some(v.VSome?) else None
    case NotZero => if v.VInt? then Some(v.i != 0) else if v.VFloat? then Some(v.r != 0.0) else None
  }

  /** `append_bool`, `append_signed`, `append_unsigned`, `append_float`, `append_string`, `append_raw`. */
  function ScalarTokens(what: Encoding, v: Value): Option<seq<Token>> {
    match what
    case EBool => if v.VBool? then Some([BoolWord(v.b)]) else None
    case EInt(_) => if v.VInt? then Some([IntWord(v.i)]) else None
    case EUInt(_) => if v.VInt? then Some([IntWord(v.i)]) else None
    case EFloat(_) => if v.VFloat? then Some([FloatWord(v.r)]) else None
    case EString => if v.VString? then Some([Text(v.s)]) else None
    case ERaw => if v.VRaw? then Some(if v.toks == [] then [NullWord] else v.toks) else None
    case _ => None
  }

  /** Leaving a block: what it declared is gone, what it assigned outside stays. */
  function Leave(inner: State, outer: Env): State {
    State(map x | x in outer && x in inner.env :: inner.env[x], inner.out)
  }

  function Block(r: Outcome<State>, outer: Env): Outcome<State> {
    match r
    case Failed(err) => Failed(err)
    case Ok(st) => Ok(Leave(st, outer))
  }

  /** A run of a statement.  Fuel counts calls, which is all that could go round for ever. */
  function Exec(prog: Program, order: Order, fuel: nat, s: Stmt, st: State): Outcome<State>
    decreases fuel, s, 0
  {
    match s
    case Pass => Ok(st)
    case Then(a, b) =>
      (match Exec(prog, order, fuel, a, st)
       case Failed(err) => Failed(err)
       case Ok(mid) => Exec(prog, order, fuel, b, mid))
    case Append(toks) => Ok(st.(out := st.out + toks))
    case AppendScalar(what, e) =>
      (match Eval(e, st.env)
       case None => Failed(IllFormed)
       case Some(v) =>
         match ScalarTokens(what, v)
         case None => Failed(IllFormed)
         case Some(toks) => Ok(st.(out := st.out + toks)))
    case AppendText(key) =>
      if key in st.env && st.env[key].LText? then Ok(st.(out := st.out + [Text(st.env[key].s)])) else Failed(IllFormed)
    case Call(func, arg) =>
      (match Eval(arg, st.env)
       case None => Failed(IllFormed)
       case Some(v) =>
         if func !in prog then Failed(IllFormed)
         else if fuel == 0 then Failed(OutOfFuel)
         else
           match Exec(prog, order, fuel - 1, prog[func], State(map[ValueArg := LValue(v)], st.out))
           case Failed(err) => Failed(err)
           case Ok(done) => Ok(st.(out := done.out)))
    case IfHolds(test, yes, no) =>
      (match Eval(test, st.env)
       case Some(VSome(_)) => Block(Exec(prog, order, fuel, yes, st), st.env)
       case Some(VNone) => Block(Exec(prog, order, fuel, no, st), st.env)
       case _ => Failed(IllFormed))
    case IfTest(kind, of, body) =>
      (match Eval(of, st.env)
       case None => Failed(IllFormed)
       case Some(v) =>
         match EvalTest(kind, v)
         case None => Failed(IllFormed)
         case Some(b) => if b then Block(Exec(prog, order, fuel, body, st), st.env) else Ok(st))
    case DeclFlag(x, b) => if x in st.env then Failed(IllFormed) else Ok(st.(env := st.env[x := LFlag(b)]))
    case SetFlag(x, b) =>
      if x in st.env && st.env[x].LFlag? then Ok(st.(env := st.env[x := LFlag(b)])) else Failed(IllFormed)
    case IfFlag(x, want, body) =>
      if x in st.env && st.env[x].LFlag? then
        if st.env[x].up == want then Block(Exec(prog, order, fuel, body, st), st.env) else Ok(st)
      else Failed(IllFormed)
    case DeclKeys(x) => if x in st.env then Failed(IllFormed) else Ok(st.(env := st.env[x := LKeys([])]))
    case CollectKeys(x, entry, of) =>
      (match Eval(of, st.env)
       case Some(VDict(entries)) =>
         if entry in st.env then Failed(IllFormed)
         else if order(entries.Keys) == [] then Ok(st)
         else if x in st.env && st.env[x].LKeys? then
           Ok(st.(env := st.env[x := LKeys(st.env[x].ks + order(entries.Keys))]))
         else Failed(IllFormed)
       case _ => Failed(IllFormed))
    case SortKeys(x) =>
      if x in st.env && st.env[x].LKeys? then Ok(st.(env := st.env[x := LKeys(Sort(st.env[x].ks))]))
      else Failed(IllFormed)
    case ForItems(item, of, body) =>
      (match Eval(of, st.env)
       case Some(VList(items)) =>
         if item in st.env then Failed(IllFormed) else ExecItems(prog, order, fuel, item, items, body, st)
       case _ => Failed(IllFormed))
    case ForKeys(key, keys, body) =>
      if keys in st.env && st.env[keys].LKeys? && key !in st.env then
        ExecKeys(prog, order, fuel, key, st.env[keys].ks, body, st)
      else Failed(IllFormed)
  }

  function ExecItems(prog: Program, order: Order, fuel: nat, item: Name, items: seq<Value>, body: Stmt,
                     st: State): Outcome<State>
    decreases fuel, body, |items| + 1
  {
    if items == [] then Ok(st)
    else
      match Block(Exec(prog, order, fuel, body, st.(env := st.env[item := LValue(items[0])])), st.env)
      case Failed(err) => Failed(err)
      case Ok(next) => ExecItems(prog, order, fuel, item, items[1..], body, next)
  }

  function ExecKeys(prog: Program, order: Order, fuel: nat, key: Name, ks: seq<string>, body: Stmt,
                    st: State): Outcome<State>
    decreases fuel, body, |ks| + 1
  {
    if ks == [] then Ok(st)
    else
      match Block(Exec(prog, order, fuel, body, st.(env := st.env[key := LText(ks[0])])), st.env)
      case Failed(err) => Failed(err)
      case Ok(next) => ExecKeys(prog, order, fuel, key, ks[1..], body, next)
  }

  // --- what is emitted ------------------------------------------------------------

  /** How many temporaries encoding one value takes. */
  function Temps(what: Encoding): nat {
    match what
    case EOptional(a) => Temps(a)
    case EList(a) => 2 + Temps(a)
    case EDict(a) => 4 + Temps(a)
    case _ => 0
  }

  /** `_encode_<struct>` */
  function EncoderOf(n: string): Func { Func(Snake(n), n) }

  /** What `encode` emits, with `n` temporaries handed out already. */
  function Encode(what: Encoding, expr: Expr, n: nat): Stmt {
    match what
    case EStruct(name) => Call(EncoderOf(name), expr)
    case EOptional(a) => IfHolds(expr, Encode(a, Payload(expr), n), Append([NullWord]))
    case EList(a) => ListStmt(expr, n, Encode(a, Var(Temp("item", n + 1)), n + 2))
    case EDict(a) => DictStmt(expr, n, Encode(a, At(expr, Temp("key", n + 3)), n + 4))
    case _ => AppendScalar(what, expr)
  }

  function ListStmt(expr: Expr, n: nat, each: Stmt): Stmt {
    Then(Then(Append([LBracket]), DeclFlag(Temp("first", n + 2), true)),
         Then(ForItems(Temp("item", n + 1), expr, CommaThen(Temp("first", n + 2), each)), Append([RBracket])))
  }

  function DictStmt(expr: Expr, n: nat, each: Stmt): Stmt {
    Then(Then(Append([LBrace]), GatherKeys(expr, Temp("keys", n + 1), Temp("entry", n + 2))),
         Then(DeclFlag(Temp("first", n + 4), true),
              Then(ForKeys(Temp("key", n + 3), Temp("keys", n + 1), EntryStmt(n, each)), Append([RBrace]))))
  }

  /** A dictionary's keys, sorted, because its own order is not one to write down. */
  function GatherKeys(expr: Expr, keys: Name, entry: Name): Stmt {
    Then(DeclKeys(keys), Then(CollectKeys(keys, entry, expr), SortKeys(keys)))
  }

  function EntryStmt(n: nat, each: Stmt): Stmt {
    CommaThen(Temp("first", n + 4), Then(AppendText(Temp("key", n + 3)), Then(Append([Colon]), each)))
  }

  /** The head of every loop body: a comma unless this is the first time round. */
  function CommaThen(first: Name, rest: Stmt): Stmt {
    Then(IfFlag(first, false, Append([Comma])), Then(SetFlag(first, false), rest))
  }

  /** `empty`: the test that says a field is to be written. */
  function EmptyTest(what: Encoding): Test {
    match what
    case EString => NotEmptyText
    case EList(_) => HasLength
    case EDict(_) => HasLength
    case ERaw => HasLength
    case EBool => Holds
    case EOptional(_) => Holds
    case _ => NotZero
  }

  /** The fields that go on the wire, in declaration order. */
  function Encoded(ms: seq<Member>): (r: seq<Member>)
    ensures forall i :: 0 <= i < |r| ==> r[i].Field? && r[i] in ms
  {
    if ms == [] then []
    else if ms[0].Field? then [ms[0]] + Encoded(ms[1..])
    else Encoded(ms[1..])
  }

  /** An `omitempty` optional is written from its inside: the test has been made already. */
  function FieldValue(m: Member, n: nat): Stmt
    requires m.Field?
  {
    var at := Attr(Var(ValueArg), m.name);
    if m.omitempty && m.encoding.EOptional? then Encode(m.encoding.arg, Payload(at), n) else Encode(m.encoding, at, n)
  }

  /** What is known of the fields so far: one is always written, or one may have been. */
  datatype Knowledge = Knowledge(certain: bool, maybe: bool)

  function CommaFor(k: Knowledge): Stmt {
    if k.certain then Append([Comma]) else if k.maybe then IfFlag(Wrote, true, Append([Comma])) else Pass
  }

  function Learn(k: Knowledge, m: Member): Knowledge
    requires m.Field?
  {
    if !m.omitempty then Knowledge(true, false)
    else if !k.certain then Knowledge(false, true)
    else k
  }

  /** One field: its comma, its key, its value, and the note that it was written. */
  function FieldStmt(m: Member, last: bool, k: Knowledge, n: nat): Stmt
    requires m.Field?
  {
    var written := Then(CommaFor(k), Then(Append([Text(m.json), Colon]), FieldValue(m, n)));
    if !m.omitempty then written
    else IfTest(EmptyTest(m.encoding), Attr(Var(ValueArg), m.name),
                Then(written, if !k.certain && !last then SetFlag(Wrote, true) else Pass))
  }

  function FieldTemps(m: Member): nat
    requires m.Field?
  {
    Temps(m.encoding)
  }

  function Fields(ms: seq<Member>, i: nat, k: Knowledge, n: nat): Stmt
    requires i <= |ms| && forall j :: 0 <= j < |ms| ==> ms[j].Field?
    decreases |ms| - i
  {
    if i == |ms| then Pass
    else Then(FieldStmt(ms[i], i == |ms| - 1, k, n), Fields(ms, i + 1, Learn(k, ms[i]), n + FieldTemps(ms[i])))
  }

  /** The run time flag exists only when the struct opens with fields that may be left out. */
  predicate NeedsWrote(ms: seq<Member>)
    requires forall j :: 0 <= j < |ms| ==> ms[j].Field?
  {
    |ms| > 1 && ms[0].omitempty
  }

  /** The body of `_encode_<struct>`. */
  function EncoderBody(c: Codec): Stmt {
    var ms := Encoded(c.members);
    Then(Append([LBrace]), Then(if NeedsWrote(ms) then DeclFlag(Wrote, false) else Pass,
      Then(Fields(ms, 0, Knowledge(false, false), 0), Append([RBrace]))))
  }

  function Encoders(p: Codecs): Program {
    map n | n in p :: EncoderOf(n) := EncoderBody(p[n])
  }
}
