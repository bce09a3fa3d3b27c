/**
 The decoder half of the generated file: the statements `value`, `into`, `fill`
 and `decoder` emit, and an interpreter for them over a scanner of tokens.

 As on the encoder side the interpreter is strict: names are declared once,
 blocks have scopes, and an assignment must fit the declared type, wrapping a
 value into an Optional where the target is one.
 */
module EmitDecoder {
  import opened Common
  import opened JsonModel
  import opened JsonText
  import opened CodecNames

  // --- the emitted language -------------------------------------------------------

  /** `v_<field>`, `key`, `result`, and the numbered temporaries. */
  datatype Name = Slot(field: string) | KeyVar | Result | Temp(stem: string, n: nat)

  /** One argument of a constructor call: moved, or taken out of its Optional. */
  datatype Arg = Moved(x: Name) | Taken(x: Name)

  datatype Stmt =
    | Pass
    | Then(a: Stmt, b: Stmt)
    | Enter
    | LeaveLevel
    | ExpectToken(t: Token)
    | UnlessAccept(t: Token, body: Stmt)
    | IfAccept(t: Token, body: Stmt)
    | UnlessNull(body: Stmt)
    | Forever(body: Stmt)
    | Continue
    | Break
    | Declare(x: Name, ty: Encoding)
    | DeclareRead(x: Name, ty: Encoding)
    | DeclareKey(x: Name)
    | AssignRead(x: Name, ty: Encoding)
    | AssignVar(x: Name, from: Name)
    | AppendTo(x: Name, from: Name)
    | StoreAt(x: Name, key: Name, from: Name)
    | IfKey(key: Name, json: string, yes: Stmt, no: Stmt)
    | UnknownKeyCall(key: Name)
    | UnlessSet(x: Name, body: Stmt)
    | RaiseMissing(struct_: string, json: string)
    | Build(struct_: string, names: seq<string>, args: seq<Arg>)

  /** A decoder of the file: the struct it gives, and what it does. */
  datatype Def = Def(gives: string, body: Stmt)

  /** The decoders by the names of their functions, which is all that tells them apart. */
  type Program = map<string, Def>

  // --- running it -------------------------------------------------------------------

  datatype Local = LVar(ty: Encoding, v: Value) | LKey(s: string)

  type Env = map<Name, Local>

  /** The locals of one call, and the scanner: what is left of the input, and the depth. */
  datatype State = State(env: Env, toks: seq<Token>, depth: nat)

  datatype Flow = Normal(st: State) | Continuing(st: State) | Breaking(st: State) | Raised(error: Error)

  function Block(r: Flow, outer: Env): Flow {
    match r
    case Normal(st) => Normal(Within(st, outer))
    case Continuing(st) => Continuing(Within(st, outer))
    case Breaking(st) => Breaking(Within(st, outer))
    case Raised(_) => r
  }

  function Within(st: State, outer: Env): State {
    st.(env := map x | x in outer && x in st.env :: st.env[x])
  }

  /** A value of type `ty` as it is stored in a variable of type `into`. */
  function Stored(into: Encoding, ty: Encoding, v: Value): Option<Value> {
    if into == ty then Some(v)
    else if into == EOptional(ty) then Some(VSome(v))
    else None
  }

  function Assign(st: State, x: Name, ty: Encoding, v: Value): Flow {
    if x in st.env && st.env[x].LVar? && Stored(st.env[x].ty, ty, v).Some? then
      Normal(st.(env := st.env[x := LVar(st.env[x].ty, Stored(st.env[x].ty, ty, v).value)]))
    else Raised(IllFormed)
  }

  function Taking(arg: Arg, env: Env): Option<Value> {
    if arg.x !in env || !env[arg.x].LVar? then None
    else if arg.Moved? then Some(env[arg.x].v)
    else if env[arg.x].v.VSome? then Some(env[arg.x].v.inner)
    else None
  }

  /** A fieldwise constructor call: the arguments in the order the fields are declared in. */
  function Construct(names: seq<string>, args: seq<Arg>, env: Env): Option<map<string, Value>> {
    if names == [] || args == [] then (if names == [] && args == [] then Some(map[]) else None)
    else
      match Taking(args[0], env)
      case None => None
      case Some(v) =>
        match Construct(names[1..], args[1..], env)
        case None => None
        case Some(rest) => Some(rest[names[0] := v])
  }

  /** A run of a statement.  Fuel counts calls and turns of loops. */
  function Exec(prog: Program, strict: bool, fuel: nat, s: Stmt, st: State): Flow
    decreases fuel, 1, s
  {
    match s
    case Pass => Normal(st)
    case Then(a, b) =>
      (match Exec(prog, strict, fuel, a, st)
       case Normal(mid) => Exec(prog, strict, fuel, b, mid)
       case other => other)
    case Enter => if st.depth + 1 > MAX_NESTING_DEPTH then Raised(TooDeep) else Normal(st.(depth := st.depth + 1))
    case LeaveLevel => if st.depth == 0 then Raised(IllFormed) else Normal(st.(depth := st.depth - 1))
    case ExpectToken(t) => if StartsWith(st.toks, t) then Normal(st.(toks := st.toks[1..])) else Raised(Expected(t))
    case UnlessAccept(t, body) =>
      if StartsWith(st.toks, t) then Normal(st.(toks := st.toks[1..]))
      else Block(Exec(prog, strict, fuel, body, st), st.env)
    case IfAccept(t, body) =>
      if StartsWith(st.toks, t) then Block(Exec(prog, strict, fuel, body, st.(toks := st.toks[1..])), st.env)
      else Normal(st)
    case UnlessNull(body) =>
      if StartsWith(st.toks, NullWord) then Normal(st.(toks := st.toks[1..]))
      else Block(Exec(prog, strict, fuel, body, st), st.env)
    case Forever(body) =>
      if fuel == 0 then Raised(OutOfFuel)
      else
        (match Block(Exec(prog, strict, fuel - 1, body, st), st.env)
         case Breaking(next) => Normal(next)
         case Normal(next) => Exec(prog, strict, fuel - 1, s, next)
         case Continuing(next) => Exec(prog, strict, fuel - 1, s, next)
         case Raised(err) => Raised(err))
    case Continue => Continuing(st)
    case Break => Breaking(st)
    case Declare(x, ty) =>
      if x in st.env || !Absent(ty) then Raised(IllFormed) else Normal(st.(env := st.env[x := LVar(ty, EmptyOf(ty))]))
    case DeclareRead(x, ty) =>
      if x in st.env then Raised(IllFormed)
      else
        (match ReadOnce(prog, strict, fuel, ty, st)
         case Failed(err) => Raised(err)
         case Ok(vt) => Normal(State(st.env[x := LVar(ty, vt.0)], vt.1, st.depth)))
    case DeclareKey(x) =>
      if x in st.env then Raised(IllFormed)
      else if st.toks == [] || !st.toks[0].Text? then Raised(ExpectedKey)
      else Normal(State(st.env[x := LKey(st.toks[0].text)], st.toks[1..], st.depth))
    case AssignRead(x, ty) =>
      (match ReadOnce(prog, strict, fuel, ty, st)
       case Failed(err) => Raised(err)
       case Ok(vt) => Assign(st.(toks := vt.1), x, ty, vt.0))
    case AssignVar(x, from) =>
      if from in st.env && st.env[from].LVar? then Assign(st, x, st.env[from].ty, st.env[from].v) else Raised(IllFormed)
    case AppendTo(x, from) =>
      if x in st.env && st.env[x].LVar? && st.env[x].v.VList? && from in st.env && st.env[from].LVar?
         && st.env[x].ty == EList(st.env[from].ty)
      then Normal(st.(env := st.env[x := LVar(st.env[x].ty, VList(st.env[x].v.items + [st.env[from].v]))]))
      else Raised(IllFormed)
    case StoreAt(x, key, from) =>
      if x in st.env && st.env[x].LVar? && st.env[x].v.VDict? && from in st.env && st.env[from].LVar?
         && st.env[x].ty == EDict(st.env[from].ty) && key in st.env && st.env[key].LKey?
      then
        var entries := st.env[x].v.entries[st.env[key].s := st.env[from].v];
        Normal(st.(env := st.env[x := LVar(st.env[x].ty, VDict(entries))]))
      else Raised(IllFormed)
    case IfKey(key, json, yes, no) =>
      if key in st.env && st.env[key].LKey? then
        if st.env[key].s == json then Block(Exec(prog, strict, fuel, yes, st), st.env)
        else Block(Exec(prog, strict, fuel, no, st), st.env)
      else Raised(IllFormed)
    case UnknownKeyCall(key) =>
      if key !in st.env || !st.env[key].LKey? then Raised(IllFormed)
      else if strict then Raised(UnknownKey(st.env[key].s))
      else
        (match Skip(st.toks, [], st.depth, MAX_NESTING_DEPTH)
         case Failed(err) => Raised(err)
         case Ok(rest) => Normal(st.(toks := rest)))
    case UnlessSet(x, body) =>
      if x in st.env && st.env[x].LVar? && (st.env[x].v.VNone? || st.env[x].v.VSome?) then
        if st.env[x].v.VSome? then Normal(st) else Block(Exec(prog, strict, fuel, body, st), st.env)
      else Raised(IllFormed)
    case RaiseMissing(n, json) => Raised(MissingKey(n, json))
    case Build(n, names, args) =>
      (match Construct(names, args, st.env)
       case Some(fields) => Normal(st.(env := st.env[Result := LVar(EStruct(n), VStruct(fields))]))
       case None => Raised(IllFormed))
  }

  /** A call for a struct `n` has a function to go to, and it gives that struct. */
  predicate HasDecoder(prog: Program, n: string) {
    Snake(n) in prog && prog[Snake(n)].gives == n
  }

  /** One read that is a single expression: a scalar, a raw message, or another struct's decoder. */
  function ReadOnce(prog: Program, strict: bool, fuel: nat, ty: Encoding, st: State): Outcome<(Value, seq<Token>)>
    decreases fuel, 0
  {
    match ty
    case ERaw => ReadRaw(st.toks, st.depth)
    case EStruct(n) =>
      if !HasDecoder(prog, n) then Failed(NoDecoder(n))
      else if fuel == 0 then Failed(OutOfFuel)
      else Returned(ty, Exec(prog, strict, fuel - 1, prog[Snake(n)].body, State(map[], st.toks, st.depth)))
    case _ => if Composite(ty) then Failed(IllFormed) else ReadScalar(ty, st.toks)
  }

  /** What a call gives back: the struct it built and the input it left. */
  function Returned(ty: Encoding, r: Flow): Outcome<(Value, seq<Token>)> {
    match r
    case Raised(err) => Failed(err)
    case Normal(st) =>
      if Result in st.env && st.env[Result].LVar? && st.env[Result].ty == ty then Ok((st.env[Result].v, st.toks))
      else Failed(IllFormed)
    case _ => Failed(IllFormed)
  }

  // --- what is emitted ----------------------------------------------------------------

  /** How many temporaries reading one value into a declared variable takes. */
  function Temps(what: Encoding): nat {
    match what
    case EOptional(a) => 1 + Temps(a)
    case EList(a) => 1 + Temps(a)
    case EDict(a) => 2 + Temps(a)
    case _ => 0
  }

  /** `value`: declare a name and read into it. */
  function ReadInto(what: Encoding, x: Name, n: nat): Stmt
    decreases what, 1
  {
    if !Composite(what) then DeclareRead(x, what) else Then(Declare(x, what), Fill(what, x, n))
  }

  /** `fill`: read a composite into a variable that is there and empty. */
  function Fill(what: Encoding, x: Name, n: nat): Stmt
    requires Composite(what)
    decreases what, 0
  {
    match what
    case EOptional(a) =>
      UnlessNull(Then(ReadInto(a, Temp("held", n + 1), n + 1), AssignVar(x, Temp("held", n + 1))))
    case EList(a) => Bracketed(LBracket, RBracket, ItemTurn(x, n, ReadInto(a, Temp("item", n + 1), n + 1)))
    case EDict(a) => Bracketed(LBrace, RBrace, EntryTurn(x, n, ReadInto(a, Temp("held", n + 2), n + 2)))
  }

  /** A level of the document: its brackets, and a loop over what is between them. */
  function Bracketed(left: Token, right: Token, turn: Stmt): Stmt {
    Then(Then(Enter, ExpectToken(left)),
         Then(UnlessAccept(right, Then(Forever(turn), ExpectToken(right))), LeaveLevel))
  }

  /** How every loop goes round: again after a comma, and out otherwise. */
  function AgainAfterComma(): Stmt {
    Then(IfAccept(Comma, Continue), Break)
  }

  function ItemTurn(x: Name, n: nat, read: Stmt): Stmt {
    Then(read, Then(AppendTo(x, Temp("item", n + 1)), AgainAfterComma()))
  }

  function EntryTurn(x: Name, n: nat, read: Stmt): Stmt {
    Then(Then(DeclareKey(Temp("key", n + 1)), ExpectToken(Colon)),
         Then(read, Then(StoreAt(x, Temp("key", n + 1), Temp("held", n + 2)), AgainAfterComma())))
  }

  /** `into`: read into a variable that already holds something. */
  function Replace(what: Encoding, x: Name, n: nat): Stmt {
    if !Composite(what) then AssignRead(x, what)
    else Then(ReadInto(what, Temp("held", n + 1), n + 1), AssignVar(x, Temp("held", n + 1)))
  }

  function ReplaceTemps(what: Encoding): nat {
    if Composite(what) then 1 + Temps(what) else 0
  }

  /** The variable a field is read into: of its own type where it may be absent, else an Optional. */
  function SlotType(what: Encoding): Encoding {
    if Absent(what) then what else EOptional(what)
  }

  function Slots(ms: seq<Member>): Stmt
    requires forall i :: 0 <= i < |ms| ==> ms[i].Field?
  {
    if ms == [] then Pass
    else Then(Declare(Slot(ms[0].name), SlotType(ms[0].encoding)), Slots(ms[1..]))
  }

  /** The `if`, `elif`, `else` chain over the keys a struct has. */
  function Dispatch(ms: seq<Member>, n: nat): Stmt
    requires forall i :: 0 <= i < |ms| ==> ms[i].Field?
  {
    if ms == [] then UnknownKeyCall(KeyVar)
    else IfKey(KeyVar, ms[0].json, Replace(ms[0].encoding, Slot(ms[0].name), n),
               Dispatch(ms[1..], n + ReplaceTemps(ms[0].encoding)))
  }

  function MemberTurn(ms: seq<Member>): Stmt
    requires forall i :: 0 <= i < |ms| ==> ms[i].Field?
  {
    Then(Then(DeclareKey(KeyVar), ExpectToken(Colon)), Then(Dispatch(ms, 0), AgainAfterComma()))
  }

  /** The test that a field which must be there was there. */
  function Checks(c: string, ms: seq<Member>): Stmt
    requires forall i :: 0 <= i < |ms| ==> ms[i].Field?
  {
    if ms == [] then Pass
    else if Absent(ms[0].encoding) then Checks(c, ms[1..])
    else Then(UnlessSet(Slot(ms[0].name), RaiseMissing(c, ms[0].json)), Checks(c, ms[1..]))
  }

  function Args(ms: seq<Member>): seq<Arg>
    requires forall i :: 0 <= i < |ms| ==> ms[i].Field?
  {
    if ms == [] then []
    else [if Absent(ms[0].encoding) then Moved(Slot(ms[0].name)) else Taken(Slot(ms[0].name))] + Args(ms[1..])
  }

  function FieldNames(ms: seq<Member>): seq<string> {
    if ms == [] then [] else [ms[0].name] + FieldNames(ms[1..])
  }

  /** The body of `_decode_<struct>`. */
  function DecoderBody(c: Codec): Stmt
    requires Decodable(c)
  {
    Then(Then(Slots(c.members), Bracketed(LBrace, RBrace, MemberTurn(c.members))),
         Then(Checks(c.name, c.members), Build(c.name, FieldNames(c.members), Args(c.members))))
  }

  /** No two decoders come out under one name. */
  ghost predicate Apart(p: Codecs) {
    forall a, b :: a in p && b in p && Decodable(p[a]) && Decodable(p[b]) && Snake(a) == Snake(b) ==> a == b
  }

  function Decoders(p: Codecs): Program
    requires Apart(p)
  {
    map n | n in p && Decodable(p[n]) :: Snake(n) := Def(n, DecoderBody(p[n]))
  }

  lemma {:induction false} DecoderAt(p: Codecs, n: string)
    requires Apart(p)
    ensures HasDecoder(Decoders(p), n) <==> n in p && Decodable(p[n])
    ensures HasDecoder(Decoders(p), n) ==> Decoders(p)[Snake(n)] == Def(n, DecoderBody(p[n]))
  {
    if n in p && Decodable(p[n]) { assert Snake(n) in Decoders(p); }
  }
}
