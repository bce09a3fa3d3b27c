/**
 Running an emitted decoder is `Read`: on every input, well formed or not, it
 ends, gives the same value and leaves the same input, or raises the same error.
 */
module DecoderRuns {
  import opened Common
  import opened JsonModel
  import opened JsonText
  import opened EmitDecoder
  import opened JsonRoundTrip
  import JsonIdentity

  // --- names and environments ---------------------------------------------------------

  predicate Below(x: Name, n: nat) { x.Temp? ==> x.n <= n }

  predicate EnvBelow(env: Env, n: nat) { forall x :: x in env ==> Below(x, n) }

  lemma {:induction false} EnvMore(env: Env, n: nat, m: nat)
    requires EnvBelow(env, n) && n <= m
    ensures EnvBelow(env, m)
  {
  }

  ghost predicate Sound(p: Codecs) {
    Apart(p) && forall n :: n in p ==> p[n].name == n && SoundCodec(p[n])
  }

  /** A read's outcome as a run that stores the value in `x`. */
  ghost function Storing(r: Outcome<(Value, seq<Token>)>, st: State, x: Name, ty: Encoding): Flow {
    match r
    case Failed(err) => Raised(err)
    case Ok(vt) => Normal(State(st.env[x := LVar(ty, vt.0)], vt.1, st.depth))
  }

  // --- one statement at a time ----------------------------------------------------------

  lemma {:induction false} Step(prog: Program, strict: bool, fuel: nat, a: Stmt, b: Stmt, st: State)
    ensures Exec(prog, strict, fuel, Then(a, b), st) ==
      match Exec(prog, strict, fuel, a, st)
      case Normal(mid) => Exec(prog, strict, fuel, b, mid)
      case other => other
  {
  }

  /** What an `expect` after a loop makes of the loop's end. */
  ghost function Closed(r: Flow, right: Token): Flow {
    match r
    case Normal(st) => if StartsWith(st.toks, right) then Normal(st.(toks := st.toks[1..])) else Raised(Expected(right))
    case _ => r
  }

  /** Coming out of a level. */
  ghost function Raising(r: Flow): Flow {
    match r
    case Normal(st) => if st.depth == 0 then Raised(IllFormed) else Normal(st.(depth := st.depth - 1))
    case _ => r
  }

  lemma {:induction false} BracketedRuns(prog: Program, strict: bool, fuel: nat, left: Token, right: Token,
                                         turn: Stmt, st: State)
    ensures Exec(prog, strict, fuel, Bracketed(left, right, turn), st) ==
      if st.depth + 1 > MAX_NESTING_DEPTH then Raised(TooDeep)
      else if !StartsWith(st.toks, left) then Raised(Expected(left))
      else if StartsWith(st.toks[1..], right) then Normal(State(st.env, st.toks[2..], st.depth))
      else Raising(Block(Closed(Exec(prog, strict, fuel, Forever(turn), State(st.env, st.toks[1..], st.depth + 1)),
                                right), st.env))
  {
    var loop := Then(Forever(turn), ExpectToken(right));
    Step(prog, strict, fuel, Then(Enter, ExpectToken(left)), Then(UnlessAccept(right, loop), LeaveLevel), st);
    Step(prog, strict, fuel, Enter, ExpectToken(left), st);
    if st.depth + 1 <= MAX_NESTING_DEPTH && StartsWith(st.toks, left) {
      var inside := State(st.env, st.toks[1..], st.depth + 1);
      assert Exec(prog, strict, fuel, Then(Enter, ExpectToken(left)), st) == Normal(inside);
      Step(prog, strict, fuel, UnlessAccept(right, loop), LeaveLevel, inside);
      Step(prog, strict, fuel, Forever(turn), ExpectToken(right), inside);
    }
  }

  /** The end of a loop's turn, with what it stored. */
  ghost function Turned(st: State): Flow {
    if StartsWith(st.toks, Comma) then Continuing(st.(toks := st.toks[1..])) else Breaking(st)
  }

  lemma {:induction false} AgainRuns(prog: Program, strict: bool, fuel: nat, st: State)
    ensures Exec(prog, strict, fuel, AgainAfterComma(), st) == Turned(st)
  {
    Step(prog, strict, fuel, IfAccept(Comma, Continue), Break, st);
    assert Within(st, st.env) == st by { assert (map x | x in st.env && x in st.env :: st.env[x]) == st.env; }
    if StartsWith(st.toks, Comma) {
      var next := st.(toks := st.toks[1..]);
      assert Exec(prog, strict, fuel, Continue, next) == Continuing(next);
      assert Within(next, st.env) == next by { assert (map x | x in st.env && x in st.env :: st.env[x]) == st.env; }
    }
  }

  lemma {:induction false} WithinKeys(st: State, outer: Env, kept: Env)
    requires outer.Keys == kept.Keys
    requires forall x :: x in kept ==> x in st.env && st.env[x] == kept[x]
    ensures Within(st, outer) == State(kept, st.toks, st.depth)
  {
    assert (map x | x in outer && x in st.env :: st.env[x]) == kept;
  }

  lemma {:induction false} WithinUpdated(env: Env, inner: Env, x: Name, l: Local, toks: seq<Token>, depth: nat)
    requires x in env && inner.Keys >= env.Keys
    requires forall y :: y in env && y != x ==> inner[y] == env[y]
    requires inner[x] == l
    ensures Within(State(inner, toks, depth), env) == State(env[x := l], toks, depth)
  {
    assert (map y | y in env && y in inner :: inner[y]) == env[x := l];
  }

  lemma {:induction false} ForeverTurn(prog: Program, strict: bool, fuel: nat, turn: Stmt, st: State)
    requires fuel > 0
    ensures Exec(prog, strict, fuel, Forever(turn), st) ==
      match Block(Exec(prog, strict, fuel - 1, turn, st), st.env)
      case Breaking(next) => Normal(next)
      case Normal(next) => Exec(prog, strict, fuel - 1, Forever(turn), next)
      case Continuing(next) => Exec(prog, strict, fuel - 1, Forever(turn), next)
      case Raised(err) => Raised(err)
  {
  }

  // --- values -------------------------------------------------------------------------------

  lemma {:induction false} ReadIntoRuns(p: Codecs, strict: bool, fuel: nat, what: Encoding, x: Name, n: nat, st: State)
    requires Sound(p) && fuel >= 2 * |st.toks| + 2
    requires x !in st.env && Below(x, n) && EnvBelow(st.env, n)
    ensures Exec(Decoders(p), strict, fuel, ReadInto(what, x, n), st)
         == Storing(Read(p, strict, what, st.toks, st.depth), st, x, what)
    decreases |st.toks|, 0, what, 5
  {
    hide Decoders, ReadOnce, Fill, Read, EmptyOf;
    if Composite(what) {
      var declared := State(st.env[x := LVar(what, EmptyOf(what))], st.toks, st.depth);
      Step(Decoders(p), strict, fuel, Declare(x, what), Fill(what, x, n), st);
      FillRuns(p, strict, fuel, what, x, n, declared);
      if Read(p, strict, what, st.toks, st.depth).Ok? {
        var v := Read(p, strict, what, st.toks, st.depth).value.0;
        assert declared.env[x := LVar(what, v)] == st.env[x := LVar(what, v)];
      }
    } else {
      ReadOnceRuns(p, strict, fuel, what, st);
    }
  }

  lemma {:induction false} FillRuns(p: Codecs, strict: bool, fuel: nat, what: Encoding, x: Name, n: nat, st: State)
    requires Sound(p) && fuel >= 2 * |st.toks| + 2 && Composite(what)
    requires x in st.env && st.env[x] == LVar(what, EmptyOf(what)) && EnvBelow(st.env, n)
    ensures Exec(Decoders(p), strict, fuel, Fill(what, x, n), st)
         == Storing(Read(p, strict, what, st.toks, st.depth), st, x, what)
    decreases |st.toks|, 0, what, 4
  {
    hide Decoders;
    match what
    case EOptional(a) => FillOptional(p, strict, fuel, a, x, n, st);
    case EList(a) => FillList(p, strict, fuel, a, x, n, st);
    case EDict(a) => FillDict(p, strict, fuel, a, x, n, st);
  }

  lemma {:induction false} FillOptional(p: Codecs, strict: bool, fuel: nat, a: Encoding, x: Name, n: nat, st: State)
    requires Sound(p) && fuel >= 2 * |st.toks| + 2
    requires x in st.env && st.env[x] == LVar(EOptional(a), VNone) && EnvBelow(st.env, n)
    ensures Exec(Decoders(p), strict, fuel, Fill(EOptional(a), x, n), st)
         == Storing(Read(p, strict, EOptional(a), st.toks, st.depth), st, x, EOptional(a))
    decreases |st.toks|, 0, EOptional(a), 3
  {
    hide Decoders;
    if StartsWith(st.toks, NullWord) {
      assert st.env[x := LVar(EOptional(a), VNone)] == st.env;
    } else {
      EnvMore(st.env, n, n + 1);
      ReadIntoRuns(p, strict, fuel, a, Temp("held", n + 1), n + 1, st);
      HeldWraps(Decoders(p), strict, fuel, a, x, n, st, Read(p, strict, a, st.toks, st.depth));
    }
  }

  /** The value read under an Optional is wrapped as it is moved. */
  lemma {:induction false} HeldWraps(prog: Program, strict: bool, fuel: nat, a: Encoding, x: Name, n: nat, st: State,
                  r: Outcome<(Value, seq<Token>)>)
    requires x in st.env && st.env[x] == LVar(EOptional(a), VNone) && !StartsWith(st.toks, NullWord)
    requires var held := Temp("held", n + 1);
      held !in st.env && Exec(prog, strict, fuel, ReadInto(a, held, n + 1), st) == Storing(r, st, held, a)
    ensures Exec(prog, strict, fuel, Fill(EOptional(a), x, n), st) ==
      match r
      case Failed(err) => Raised(err)
      case Ok(vt) => Normal(State(st.env[x := LVar(EOptional(a), VSome(vt.0))], vt.1, st.depth))
  {
    hide ReadOnce, ReadInto;
    var held := Temp("held", n + 1);
    Step(prog, strict, fuel, ReadInto(a, held, n + 1), AssignVar(x, held), st);
    NeverOwnOptional(a);
    if r.Ok? {
      var l := LVar(EOptional(a), VSome(r.value.0));
      WithinUpdated(st.env, st.env[held := LVar(a, r.value.0)][x := l], x, l, r.value.1, st.depth);
    }
  }

  lemma {:induction false} NeverOwnOptional(a: Encoding)
    ensures EOptional(a) != a
  {
    if a.EOptional? { NeverOwnOptional(a.arg); }
  }

  lemma {:induction false} FillList(p: Codecs, strict: bool, fuel: nat, a: Encoding, x: Name, n: nat, st: State)
    requires Sound(p) && fuel >= 2 * |st.toks| + 2
    requires x in st.env && st.env[x] == LVar(EList(a), VList([])) && EnvBelow(st.env, n)
    ensures Exec(Decoders(p), strict, fuel, Fill(EList(a), x, n), st)
         == Storing(Read(p, strict, EList(a), st.toks, st.depth), st, x, EList(a))
    decreases |st.toks|, 0, EList(a), 3
  {
    hide Decoders, Exec, ReadInto, ReadItems, EnvBelow;
    var turn := ItemTurn(x, n, ReadInto(a, Temp("item", n + 1), n + 1));
    BracketedRuns(Decoders(p), strict, fuel, LBracket, RBracket, turn, st);
    assert st.env[x := LVar(EList(a), VList([]))] == st.env;
    if st.depth + 1 <= MAX_NESTING_DEPTH && StartsWith(st.toks, LBracket) && !StartsWith(st.toks[1..], RBracket) {
      ItemsRuns(p, strict, fuel, a, x, n, State(st.env, st.toks[1..], st.depth + 1), []);
      LevelStored(ReadItems(p, strict, a, st.toks[1..], st.depth + 1, []), st, st.toks[1..], x, EList(a));
    }
  }

  /** A level read and come out of again stores what was read one level up. */
  lemma {:induction false} LevelStored(r: Outcome<(Value, seq<Token>)>, st: State, toks: seq<Token>, x: Name,
                                       ty: Encoding)
    requires x in st.env
    ensures Raising(Block(Storing(r, State(st.env, toks, st.depth + 1), x, ty), st.env)) == Storing(r, st, x, ty)
  {
    WithinStoring(r, State(st.env, toks, st.depth + 1), x, ty);
  }

  lemma {:induction false} WithinStoring(r: Outcome<(Value, seq<Token>)>, st: State, x: Name, ty: Encoding)
    requires x in st.env
    ensures Block(Storing(r, st, x, ty), st.env) == Storing(r, st, x, ty)
  {
    if r.Ok? { WithinUpdated(st.env, st.env[x := LVar(ty, r.value.0)], x, LVar(ty, r.value.0), r.value.1, st.depth); }
  }

  lemma {:induction false} ItemsRuns(p: Codecs, strict: bool, fuel: nat, a: Encoding, x: Name, n: nat, st: State,
                                     acc: seq<Value>)
    requires Sound(p) && fuel >= 2 * |st.toks| + 3
    requires x in st.env && st.env[x] == LVar(EList(a), VList(acc)) && EnvBelow(st.env, n)
    ensures Closed(Exec(Decoders(p), strict, fuel, Forever(ItemTurn(x, n, ReadInto(a, Temp("item", n + 1), n + 1))),
                        st), RBracket)
         == Storing(ReadItems(p, strict, a, st.toks, st.depth, acc), st, x, EList(a))
    decreases |st.toks|, 0, a, 7
  {
    hide Decoders, Exec, Read, ReadInto;
    var turn := ItemTurn(x, n, ReadInto(a, Temp("item", n + 1), n + 1));
    ItemTurnRuns(p, strict, fuel - 1, a, x, n, st, acc);
    ForeverTurn(Decoders(p), strict, fuel, turn, st);
    var r := Read(p, strict, a, st.toks, st.depth);
    if r.Ok? {
      var v, rest := r.value.0, r.value.1;
      var env := st.env[x := LVar(EList(a), VList(acc + [v]))];
      if StartsWith(rest, Comma) {
        ItemsRuns(p, strict, fuel - 1, a, x, n, State(env, rest[1..], st.depth), acc + [v]);
        Restored(ReadItems(p, strict, a, rest[1..], st.depth, acc + [v]), st, State(env, rest[1..], st.depth), x,
                 EList(a));
      }
    }
  }

  /** Storing over a later value of the same variable is storing over the first. */
  lemma {:induction false} Restored(r: Outcome<(Value, seq<Token>)>, st: State, later: State, x: Name, ty: Encoding)
    requires x in later.env && later.env == st.env[x := later.env[x]] && later.depth == st.depth
    ensures Storing(r, later, x, ty) == Storing(r, st, x, ty)
  {
    if r.Ok? { assert later.env[x := LVar(ty, r.value.0)] == st.env[x := LVar(ty, r.value.0)]; }
  }

  lemma {:induction false} ItemTurnRuns(p: Codecs, strict: bool, fuel: nat, a: Encoding, x: Name, n: nat, st: State,
                                        acc: seq<Value>)
    requires Sound(p) && fuel >= 2 * |st.toks| + 2
    requires x in st.env && st.env[x] == LVar(EList(a), VList(acc)) && EnvBelow(st.env, n)
    ensures Block(Exec(Decoders(p), strict, fuel, ItemTurn(x, n, ReadInto(a, Temp("item", n + 1), n + 1)), st),
                  st.env) ==
      match Read(p, strict, a, st.toks, st.depth)
      case Failed(err) => Raised(err)
      case Ok(vt) => Turned(State(st.env[x := LVar(EList(a), VList(acc + [vt.0]))], vt.1, st.depth))
    decreases |st.toks|, 0, a, 6
  {
    hide Decoders;
    EnvMore(st.env, n, n + 1);
    ReadIntoRuns(p, strict, fuel, a, Temp("item", n + 1), n + 1, st);
    ItemLands(Decoders(p), strict, fuel, a, x, n, st, acc, Read(p, strict, a, st.toks, st.depth));
  }

  lemma {:induction false} ItemLands(prog: Program, strict: bool, fuel: nat, a: Encoding, x: Name, n: nat, st: State,
                                     acc: seq<Value>,
                  r: Outcome<(Value, seq<Token>)>)
    requires x in st.env && st.env[x] == LVar(EList(a), VList(acc)) && EnvBelow(st.env, n)
    requires Exec(prog, strict, fuel, ReadInto(a, Temp("item", n + 1), n + 1), st)
      == Storing(r, st, Temp("item", n + 1), a)
    ensures Block(Exec(prog, strict, fuel, ItemTurn(x, n, ReadInto(a, Temp("item", n + 1), n + 1)), st), st.env) ==
      match r
      case Failed(err) => Raised(err)
      case Ok(vt) => Turned(State(st.env[x := LVar(EList(a), VList(acc + [vt.0]))], vt.1, st.depth))
  {
    hide ReadOnce, ReadInto, Exec;
    var item := Temp("item", n + 1);
    Step(prog, strict, fuel, ReadInto(a, item, n + 1), Then(AppendTo(x, item), AgainAfterComma()), st);
    if r.Ok? {
      var v, rest := r.value.0, r.value.1;
      var got := State(st.env[item := LVar(a, v)], rest, st.depth);
      var now := State(got.env[x := LVar(EList(a), VList(acc + [v]))], rest, st.depth);
      AppendRuns(prog, strict, fuel, a, x, item, got, acc, v);
      Step(prog, strict, fuel, AppendTo(x, item), AgainAfterComma(), got);
      AgainRuns(prog, strict, fuel, now);
      TurnedWithin(st.env, now, x, LVar(EList(a), VList(acc + [v])));
    }
  }

  lemma {:induction false} AppendRuns(prog: Program, strict: bool, fuel: nat, a: Encoding, x: Name, item: Name,
                                      st: State,
                   acc: seq<Value>, v: Value)
    requires x in st.env && st.env[x] == LVar(EList(a), VList(acc)) && item in st.env && st.env[item] == LVar(a, v)
    ensures Exec(prog, strict, fuel, AppendTo(x, item), st)
         == Normal(State(st.env[x := LVar(EList(a), VList(acc + [v]))], st.toks, st.depth))
  {
  }

  lemma {:induction false} TurnedWithin(env: Env, now: State, x: Name, l: Local)
    requires x in env && now.env.Keys >= env.Keys
    requires forall y :: y in env && y != x ==> now.env[y] == env[y]
    requires now.env[x] == l
    ensures Block(Turned(now), env) == Turned(State(env[x := l], now.toks, now.depth))
  {
    WithinUpdated(env, now.env, x, l, now.toks, now.depth);
    if StartsWith(now.toks, Comma) { WithinUpdated(env, now.env, x, l, now.toks[1..], now.depth); }
  }

  // --- dictionaries ------------------------------------------------------------------------

  lemma {:induction false} FillDict(p: Codecs, strict: bool, fuel: nat, a: Encoding, x: Name, n: nat, st: State)
    requires Sound(p) && fuel >= 2 * |st.toks| + 2
    requires x in st.env && st.env[x] == LVar(EDict(a), VDict(map[])) && EnvBelow(st.env, n)
    ensures Exec(Decoders(p), strict, fuel, Fill(EDict(a), x, n), st)
         == Storing(Read(p, strict, EDict(a), st.toks, st.depth), st, x, EDict(a))
    decreases |st.toks|, 0, EDict(a), 3
  {
    hide Decoders, Exec, ReadInto, ReadEntries, EnvBelow;
    var turn := EntryTurn(x, n, ReadInto(a, Temp("held", n + 2), n + 2));
    BracketedRuns(Decoders(p), strict, fuel, LBrace, RBrace, turn, st);
    assert st.env[x := LVar(EDict(a), VDict(map[]))] == st.env;
    if st.depth + 1 <= MAX_NESTING_DEPTH && StartsWith(st.toks, LBrace) && !StartsWith(st.toks[1..], RBrace) {
      EntriesRuns(p, strict, fuel, a, x, n, State(st.env, st.toks[1..], st.depth + 1), map[]);
      LevelStored(ReadEntries(p, strict, a, st.toks[1..], st.depth + 1, map[]), st, st.toks[1..], x, EDict(a));
    }
  }

  lemma {:induction false} EntriesRuns(p: Codecs, strict: bool, fuel: nat, a: Encoding, x: Name, n: nat, st: State,
                                       acc: map<string, Value>)
    requires Sound(p) && fuel >= 2 * |st.toks| + 3
    requires x in st.env && st.env[x] == LVar(EDict(a), VDict(acc)) && EnvBelow(st.env, n)
    ensures Closed(Exec(Decoders(p), strict, fuel, Forever(EntryTurn(x, n, ReadInto(a, Temp("held", n + 2), n + 2))),
                        st), RBrace)
         == Storing(ReadEntries(p, strict, a, st.toks, st.depth, acc), st, x, EDict(a))
    decreases |st.toks|, 0, a, 7
  {
    hide Decoders, Exec, Read, ReadInto, KeyAndColon;
    var turn := EntryTurn(x, n, ReadInto(a, Temp("held", n + 2), n + 2));
    EntryTurnRuns(p, strict, fuel - 1, a, x, n, st, acc);
    ForeverTurn(Decoders(p), strict, fuel, turn, st);
    if KeyAndColon(st.toks).Ok? {
      var key, text := KeyAndColon(st.toks).value.0, KeyAndColon(st.toks).value.1;
      var r := Read(p, strict, a, text, st.depth);
      if r.Ok? {
        var now := acc[key := r.value.0];
        var rest := r.value.1;
        if StartsWith(rest, Comma) {
          var later := State(st.env[x := LVar(EDict(a), VDict(now))], rest[1..], st.depth);
          EntriesRuns(p, strict, fuel - 1, a, x, n, later, now);
          Restored(ReadEntries(p, strict, a, rest[1..], st.depth, now), st, later, x, EDict(a));
        }
      }
    }
  }

  /** `read_key`, and the colon: the front of every turn of an object loop. */
  lemma {:induction false} KeyRuns(prog: Program, strict: bool, fuel: nat, key: Name, rest: Stmt, st: State)
    requires key !in st.env
    ensures Exec(prog, strict, fuel, Then(Then(DeclareKey(key), ExpectToken(Colon)), rest), st) ==
      match KeyAndColon(st.toks)
      case Failed(err) => Raised(err)
      case Ok(kt) => Exec(prog, strict, fuel, rest, State(st.env[key := LKey(kt.0)], kt.1, st.depth))
  {
    Step(prog, strict, fuel, Then(DeclareKey(key), ExpectToken(Colon)), rest, st);
    Step(prog, strict, fuel, DeclareKey(key), ExpectToken(Colon), st);
    if st.toks != [] && st.toks[0].Text? && StartsWith(st.toks[1..], Colon) {
      assert st.toks[1..][1..] == st.toks[2..];
    }
  }

  lemma {:induction false} EntryTurnRuns(p: Codecs, strict: bool, fuel: nat, a: Encoding, x: Name, n: nat, st: State,
                                         acc: map<string, Value>)
    requires Sound(p) && fuel >= 2 * |st.toks| + 2
    requires x in st.env && st.env[x] == LVar(EDict(a), VDict(acc)) && EnvBelow(st.env, n)
    ensures Block(Exec(Decoders(p), strict, fuel, EntryTurn(x, n, ReadInto(a, Temp("held", n + 2), n + 2)), st),
                  st.env) ==
      match KeyAndColon(st.toks)
      case Failed(err) => Raised(err)
      case Ok(kt) =>
        match Read(p, strict, a, kt.1, st.depth)
        case Failed(err) => Raised(err)
        case Ok(vt) => Turned(State(st.env[x := LVar(EDict(a), VDict(acc[kt.0 := vt.0]))], vt.1, st.depth))
    decreases |st.toks|, 0, a, 6
  {
    hide Decoders;
    var key := Temp("key", n + 1);
    KeyRuns(Decoders(p), strict, fuel, key, EntryRest(a, x, n), st);
    if KeyAndColon(st.toks).Ok? {
      var kt := KeyAndColon(st.toks).value;
      var named := State(st.env[key := LKey(kt.0)], kt.1, st.depth);
      ReadIntoRuns(p, strict, fuel, a, Temp("held", n + 2), n + 2, named);
      EntryLands(Decoders(p), strict, fuel, a, x, n, st, acc, kt.0, named, Read(p, strict, a, kt.1, st.depth));
    }
  }

  /** A dictionary loop's turn after its key. */
  function EntryRest(a: Encoding, x: Name, n: nat): Stmt {
    Then(ReadInto(a, Temp("held", n + 2), n + 2),
         Then(StoreAt(x, Temp("key", n + 1), Temp("held", n + 2)), AgainAfterComma()))
  }

  lemma {:induction false} EntryLands(prog: Program, strict: bool, fuel: nat, a: Encoding, x: Name, n: nat, st: State,
                   acc: map<string, Value>, key: string, named: State, r: Outcome<(Value, seq<Token>)>)
    requires x in st.env && st.env[x] == LVar(EDict(a), VDict(acc)) && EnvBelow(st.env, n)
    requires named.env == st.env[Temp("key", n + 1) := LKey(key)] && named.depth == st.depth
    requires Exec(prog, strict, fuel, ReadInto(a, Temp("held", n + 2), n + 2), named)
      == Storing(r, named, Temp("held", n + 2), a)
    ensures Block(Exec(prog, strict, fuel, EntryRest(a, x, n), named), st.env) ==
      match r
      case Failed(err) => Raised(err)
      case Ok(vt) => Turned(State(st.env[x := LVar(EDict(a), VDict(acc[key := vt.0]))], vt.1, st.depth))
  {
    var held := Temp("held", n + 2);
    var store := StoreAt(x, Temp("key", n + 1), held);
    Step(prog, strict, fuel, ReadInto(a, held, n + 2), Then(store, AgainAfterComma()), named);
    if r.Ok? {
      var v, rest := r.value.0, r.value.1;
      var got := State(named.env[held := LVar(a, v)], rest, st.depth);
      var l := LVar(EDict(a), VDict(acc[key := v]));
      var now := State(got.env[x := l], rest, st.depth);
      StoreRuns(prog, strict, fuel, a, x, Temp("key", n + 1), held, got, acc, key, v);
      Step(prog, strict, fuel, store, AgainAfterComma(), got);
      AgainRuns(prog, strict, fuel, now);
      TurnedWithin(st.env, now, x, l);
    }
  }

  lemma {:induction false} StoreRuns(prog: Program, strict: bool, fuel: nat, a: Encoding, x: Name, key: Name,
                                     held: Name, st: State,
                  acc: map<string, Value>, k: string, v: Value)
    requires x in st.env && st.env[x] == LVar(EDict(a), VDict(acc))
    requires key in st.env && st.env[key] == LKey(k) && held in st.env && st.env[held] == LVar(a, v)
    ensures Exec(prog, strict, fuel, StoreAt(x, key, held), st)
         == Normal(State(st.env[x := LVar(EDict(a), VDict(acc[k := v]))], st.toks, st.depth))
  {
  }

  // --- structs -------------------------------------------------------------------------------

  predicate AllFields(ms: seq<Member>) {
    forall i :: 0 <= i < |ms| ==> ms[i].Field?
  }

  /** What a field's variable holds when the document has given `slots` so far. */
  function SlotLocal(m: Member, slots: map<string, Value>): Local
    requires m.Field?
  {
    if Absent(m.encoding) then
      LVar(m.encoding, if m.name in slots then slots[m.name] else EmptyOf(m.encoding))
    else LVar(EOptional(m.encoding), if m.name in slots then VSome(slots[m.name]) else VNone)
  }

  function SlotsEnv(ms: seq<Member>, slots: map<string, Value>): Env
    requires AllFields(ms)
  {
    if ms == [] then map[] else SlotsEnv(ms[1..], slots)[Slot(ms[0].name) := SlotLocal(ms[0], slots)]
  }

  lemma {:induction false} SlotsEnvAt(ms: seq<Member>, slots: map<string, Value>)
    requires AllFields(ms) && DistinctNames(ms)
    ensures forall x :: x in SlotsEnv(ms, slots) ==> x.Slot? && exists i :: 0 <= i < |ms| && ms[i].name == x.field
    ensures forall i :: 0 <= i < |ms| ==>
      Slot(ms[i].name) in SlotsEnv(ms, slots) && SlotsEnv(ms, slots)[Slot(ms[i].name)] == SlotLocal(ms[i], slots)
  {
    hide SlotLocal;
    if ms != [] {
      SlotsEnvAt(ms[1..], slots);
      forall x | x in SlotsEnv(ms, slots) ensures x.Slot? && exists i :: 0 <= i < |ms| && ms[i].name == x.field {
        if x == Slot(ms[0].name) {
          assert ms[0].name == x.field;
        } else {
          var i :| 0 <= i < |ms| - 1 && ms[1..][i].name == x.field;
          assert ms[i + 1].name == x.field;
        }
      }
      forall i | 0 <= i < |ms|
        ensures Slot(ms[i].name) in SlotsEnv(ms, slots) && SlotsEnv(ms, slots)[Slot(ms[i].name)]
          == SlotLocal(ms[i], slots)
      {
        if i > 0 { assert ms[i] == ms[1..][i - 1]; }
      }
    }
  }

  lemma {:induction false} SlotsEnvSet(ms: seq<Member>, slots: map<string, Value>, i: nat, v: Value)
    requires AllFields(ms) && DistinctNames(ms) && i < |ms|
    ensures SlotsEnv(ms, slots[ms[i].name := v])
         == SlotsEnv(ms, slots)[Slot(ms[i].name) := SlotLocal(ms[i], slots[ms[i].name := v])]
  {
    var now := slots[ms[i].name := v];
    SlotsEnvAt(ms, slots);
    SlotsEnvAt(ms, now);
    var a, b := SlotsEnv(ms, now), SlotsEnv(ms, slots)[Slot(ms[i].name) := SlotLocal(ms[i], now)];
    forall x | x in a || x in b ensures x in a && x in b && a[x] == b[x] {
      var j :| 0 <= j < |ms| && ms[j].name == x.field;
      assert x == Slot(ms[j].name);
    }
    assert a == b;
  }

  lemma {:induction false} SetBefore(env: Env, x: Name, l: Local, more: Env)
    requires x !in more
    ensures env[x := l] + more == env + more[x := l]
  {
  }

  lemma {:induction false} SlotDeclared(prog: Program, strict: bool, fuel: nat, ms: seq<Member>, st: State)
    requires AllFields(ms) && ms != [] && Slot(ms[0].name) !in st.env
    ensures Exec(prog, strict, fuel, Slots(ms), st)
         == Exec(prog, strict, fuel, Slots(ms[1..]), st.(env := st.env[Slot(ms[0].name) := SlotLocal(ms[0], map[])]))
  {
    Step(prog, strict, fuel, Declare(Slot(ms[0].name), SlotType(ms[0].encoding)), Slots(ms[1..]), st);
  }

  lemma {:induction false} SlotsRuns(prog: Program, strict: bool, fuel: nat, ms: seq<Member>, st: State)
    requires AllFields(ms) && DistinctNames(ms)
    requires forall i :: 0 <= i < |ms| ==> Slot(ms[i].name) !in st.env
    ensures Exec(prog, strict, fuel, Slots(ms), st) == Normal(st.(env := st.env + SlotsEnv(ms, map[])))
  {
    if ms == [] {
      assert st.env + map[] == st.env;
    } else {
      var x := Slot(ms[0].name);
      var l := SlotLocal(ms[0], map[]);
      SlotDeclared(prog, strict, fuel, ms, st);
      var next := st.(env := st.env[x := l]);
      assert forall i :: 0 <= i < |ms| - 1 ==> ms[1..][i] == ms[i + 1];
      SlotsRuns(prog, strict, fuel, ms[1..], next);
      SlotsEnvAt(ms[1..], map[]);
      assert x !in SlotsEnv(ms[1..], map[]);
      SetBefore(st.env, x, l, SlotsEnv(ms[1..], map[]));
    }
  }

  /** A read's outcome as a run that fills a field's variable. */
  ghost function Filling(r: Outcome<(Value, seq<Token>)>, m: Member, st: State, slots: map<string, Value>): Flow
    requires m.Field?
  {
    match r
    case Failed(err) => Raised(err)
    case Ok(vt) => Normal(State(st.env[Slot(m.name) := SlotLocal(m, slots[m.name := vt.0])], vt.1, st.depth))
  }

  lemma {:induction false} ReplaceRuns(p: Codecs, strict: bool, fuel: nat, m: Member, n: nat, st: State,
                                       slots: map<string, Value>)
    requires Sound(p) && fuel >= 2 * |st.toks| + 2 && m.Field?
    requires Slot(m.name) in st.env && st.env[Slot(m.name)] == SlotLocal(m, slots) && EnvBelow(st.env, n)
    ensures Block(Exec(Decoders(p), strict, fuel, Replace(m.encoding, Slot(m.name), n), st), st.env)
         == Filling(Read(p, strict, m.encoding, st.toks, st.depth), m, st, slots)
    decreases |st.toks|, 1
  {
    hide Decoders;
    if Composite(m.encoding) {
      EnvMore(st.env, n, n + 1);
      ReadIntoRuns(p, strict, fuel, m.encoding, Temp("held", n + 1), n + 1, st);
      HeldMoves(Decoders(p), strict, fuel, m, n, st, slots, Read(p, strict, m.encoding, st.toks, st.depth));
    } else {
      ReadOnceRuns(p, strict, fuel, m.encoding, st);
      ScalarLands(Decoders(p), strict, fuel, m, st, slots, Read(p, strict, m.encoding, st.toks, st.depth));
    }
  }

  lemma {:induction false} HeldMoves(prog: Program, strict: bool, fuel: nat, m: Member, n: nat, st: State,
                                     slots: map<string, Value>,
                  r: Outcome<(Value, seq<Token>)>)
    requires m.Field? && Composite(m.encoding)
    requires Slot(m.name) in st.env && st.env[Slot(m.name)] == SlotLocal(m, slots)
    requires var held := Temp("held", n + 1);
      held !in st.env && Exec(prog, strict, fuel, ReadInto(m.encoding, held, n + 1), st) == Storing(r, st, held,
            m.encoding)
    ensures Block(Exec(prog, strict, fuel, Replace(m.encoding, Slot(m.name), n), st), st.env)
      == Filling(r, m, st, slots)
  {
    hide ReadOnce, ReadInto;
    var x, held := Slot(m.name), Temp("held", n + 1);
    Step(prog, strict, fuel, ReadInto(m.encoding, held, n + 1), AssignVar(x, held), st);
    if r.Ok? {
      var l := LVar(m.encoding, r.value.0);
      WithinUpdated(st.env, st.env[held := l][x := l], x, l, r.value.1, st.depth);
    }
  }

  lemma {:induction false} ScalarLands(prog: Program, strict: bool, fuel: nat, m: Member, st: State,
                                       slots: map<string, Value>,
                    r: Outcome<(Value, seq<Token>)>)
    requires m.Field? && !Composite(m.encoding)
    requires Slot(m.name) in st.env && st.env[Slot(m.name)] == SlotLocal(m, slots)
    requires ReadOnce(prog, strict, fuel, m.encoding, st) == r
    ensures Block(Exec(prog, strict, fuel, Replace(m.encoding, Slot(m.name), 0), st), st.env)
      == Filling(r, m, st, slots)
  {
    NeverOwnOptional(m.encoding);
    if r.Ok? {
      var l := SlotLocal(m, slots[m.name := r.value.0]);
      WithinUpdated(st.env, st.env[Slot(m.name) := l], Slot(m.name), l, r.value.1, st.depth);
    }
  }

  /** The variables of a member loop: the slots and the key of this turn. */
  predicate Turning(c: Codec, key: string, slots: map<string, Value>, st: State)
    requires AllFields(c.members)
  {
    st.env == SlotsEnv(c.members, slots)[KeyVar := LKey(key)]
  }

  ghost function Dispatched(c: Codec, r: Outcome<(map<string, Value>, seq<Token>)>, key: string, depth: nat): Flow
    requires AllFields(c.members)
  {
    match r
    case Failed(err) => Raised(err)
    case Ok(st) => Normal(State(SlotsEnv(c.members, st.0)[KeyVar := LKey(key)], st.1, depth))
  }

  ghost function Unmatched(strict: bool, key: string, toks: seq<Token>, depth: nat,
                           slots: map<string, Value>): Outcome<(map<string, Value>, seq<Token>)> {
    if strict then Failed(UnknownKey(key))
    else
      match Skip(toks, [], depth, MAX_NESTING_DEPTH)
      case Failed(err) => Failed(err)
      case Ok(rest) => Ok((slots, rest))
  }

  /** `ReadMember`, with the search for the field started at `j`. */
  ghost function ReadMemberFrom(p: Codecs, strict: bool, c: Codec, key: string, j: nat, toks: seq<Token>, depth: nat,
                                slots: map<string, Value>): Outcome<(map<string, Value>, seq<Token>)>
    requires j <= |c.members|
  {
    match FieldFrom(c, key, j)
    case None => Unmatched(strict, key, toks, depth, slots)
    case Some(i) =>
      match Read(p, strict, c.members[i].encoding, toks, depth)
      case Failed(err) => Failed(err)
      case Ok(vt) => Ok((slots[c.members[i].name := vt.0], vt.1))
  }

  lemma {:induction false} DispatchShape(prog: Program, strict: bool, fuel: nat, ms: seq<Member>, n: nat, key: string,
                                         st: State)
    requires AllFields(ms) && ms != [] && KeyVar in st.env && st.env[KeyVar] == LKey(key)
    ensures Exec(prog, strict, fuel, Dispatch(ms, n), st) ==
      Block(Exec(prog, strict, fuel,
                 if key == ms[0].json then Replace(ms[0].encoding, Slot(ms[0].name), n)
                 else Dispatch(ms[1..], n + ReplaceTemps(ms[0].encoding)), st), st.env)
  {
    var yes, no := Replace(ms[0].encoding, Slot(ms[0].name), n), Dispatch(ms[1..], n + ReplaceTemps(ms[0].encoding));
    assert Dispatch(ms, n) == IfKey(KeyVar, ms[0].json, yes, no);
    IfKeyShape(prog, strict, fuel, KeyVar, ms[0].json, yes, no, key, st);
  }

  lemma {:induction false} IfKeyShape(prog: Program, strict: bool, fuel: nat, x: Name, json: string, yes: Stmt,
                                      no: Stmt, key: string,
                   st: State)
    requires x in st.env && st.env[x] == LKey(key)
    ensures Exec(prog, strict, fuel, IfKey(x, json, yes, no), st)
         == Block(Exec(prog, strict, fuel, if key == json then yes else no, st), st.env)
  {
  }

  lemma {:induction false} UnknownRuns(prog: Program, strict: bool, fuel: nat, c: Codec, key: string, st: State,
                                       slots: map<string, Value>)
    requires AllFields(c.members) && Turning(c, key, slots, st)
    ensures Exec(prog, strict, fuel, UnknownKeyCall(KeyVar), st)
      == Dispatched(c, Unmatched(strict, key, st.toks, st.depth, slots), key, st.depth)
  {
  }

  lemma {:induction false} DispatchRuns(p: Codecs, strict: bool, fuel: nat, c: Codec, key: string, j: nat, n: nat,
                                        st: State, slots: map<string, Value>)
    requires Sound(p) && fuel >= 2 * |st.toks| + 2
    requires AllFields(c.members) && DistinctNames(c.members) && j <= |c.members| && Turning(c, key, slots, st)
    ensures Exec(Decoders(p), strict, fuel, Dispatch(c.members[j..], n), st)
         == Dispatched(c, ReadMemberFrom(p, strict, c, key, j, st.toks, st.depth, slots), key, st.depth)
    decreases |st.toks|, 3, |c.members| - j
  {
    hide Decoders, Read, ReadMembers, ReadMember, FieldFrom, Exec, SlotsEnv;
    if j < |c.members| {
      var m := c.members[j];
      var ms := c.members[j..];
      assert ms[0] == m && ms[1..] == c.members[j + 1..];
      DispatchShape(Decoders(p), strict, fuel, ms, n, key, st);
      if key == m.json {
        TurningBelow(c, key, slots, st, n);
        HitRuns(p, strict, fuel, c, key, j, n, st, slots);
      } else {
        DispatchRuns(p, strict, fuel, c, key, j + 1, n + ReplaceTemps(m.encoding), st, slots);
        DispatchedWithin(c, ReadMemberFrom(p, strict, c, key, j + 1, st.toks, st.depth, slots), key, st, slots);
      }
    } else {
      assert c.members[j..] == [];
      UnknownRuns(Decoders(p), strict, fuel, c, key, st, slots);
    }
  }

  lemma {:induction false} TurningBelow(c: Codec, key: string, slots: map<string, Value>, st: State, n: nat)
    requires AllFields(c.members) && DistinctNames(c.members) && Turning(c, key, slots, st)
    ensures EnvBelow(st.env, n)
  {
    SlotsEnvAt(c.members, slots);
  }

  lemma {:induction false} SetApart(env: Env, x: Name, a: Local, y: Name, b: Local)
    requires x != y
    ensures env[x := a][y := b] == env[y := b][x := a]
  {
  }

  lemma {:induction false} HitRuns(p: Codecs, strict: bool, fuel: nat, c: Codec, key: string, j: nat, n: nat,
                                   st: State, slots: map<string, Value>)
    requires Sound(p) && fuel >= 2 * |st.toks| + 2 && EnvBelow(st.env, n)
    requires AllFields(c.members) && DistinctNames(c.members) && j < |c.members| && Turning(c, key, slots, st)
    requires key == c.members[j].json
    ensures var m := c.members[j];
      Block(Exec(Decoders(p), strict, fuel, Replace(m.encoding, Slot(m.name), n), st), st.env)
      == Dispatched(c, ReadMemberFrom(p, strict, c, key, j, st.toks, st.depth, slots), key, st.depth)
    decreases |st.toks|, 2
  {
    hide Decoders;
    var m := c.members[j];
    SlotsEnvAt(c.members, slots);
    ReplaceRuns(p, strict, fuel, m, n, st, slots);
    var r := Read(p, strict, m.encoding, st.toks, st.depth);
    if r.Ok? {
      SlotsEnvSet(c.members, slots, j, r.value.0);
      var l := SlotLocal(m, slots[m.name := r.value.0]);
      SetApart(SlotsEnv(c.members, slots), KeyVar, LKey(key), Slot(m.name), l);
    }
  }

  lemma {:induction false} DispatchedWithin(c: Codec, r: Outcome<(map<string, Value>, seq<Token>)>, key: string,
                                            st: State,
                         slots: map<string, Value>)
    requires AllFields(c.members) && DistinctNames(c.members) && Turning(c, key, slots, st)
    ensures Block(Dispatched(c, r, key, st.depth), st.env) == Dispatched(c, r, key, st.depth)
  {
    if r.Ok? {
      SlotKeys(c, slots, r.value.0);
      var inner := SlotsEnv(c.members, r.value.0)[KeyVar := LKey(key)];
      WithinKeys(State(inner, r.value.1, st.depth), st.env, inner);
    }
  }

  /** One key of an object: the text of `ReadMembers` up to the end of the turn. */
  ghost function MemberTurned(p: Codecs, strict: bool, c: Codec, st: State, slots: map<string, Value>): Flow
    requires AllFields(c.members)
  {
    match KeyAndColon(st.toks)
    case Failed(err) => Raised(err)
    case Ok(kt) =>
      match ReadMember(p, strict, c, kt.0, kt.1, st.depth, slots)
      case Failed(err) => Raised(err)
      case Ok(now) => Turned(State(SlotsEnv(c.members, now.0), now.1, st.depth))
  }

  lemma {:induction false} MemberTurnRuns(p: Codecs, strict: bool, fuel: nat, c: Codec, st: State,
                                          slots: map<string, Value>)
    requires Sound(p) && fuel >= 2 * |st.toks| + 2
    requires AllFields(c.members) && DistinctNames(c.members) && st.env == SlotsEnv(c.members, slots)
    ensures Block(Exec(Decoders(p), strict, fuel, MemberTurn(c.members), st), st.env)
      == MemberTurned(p, strict, c, st, slots)
    decreases |st.toks|, 4
  {
    hide Decoders, Exec, Dispatch, Read, SlotsEnv;
    SlotsEnvAt(c.members, slots);
    KeyRuns(Decoders(p), strict, fuel, KeyVar, Then(Dispatch(c.members, 0), AgainAfterComma()), st);
    if KeyAndColon(st.toks).Ok? {
      var kt := KeyAndColon(st.toks).value;
      var named := State(st.env[KeyVar := LKey(kt.0)], kt.1, st.depth);
      assert c.members[0..] == c.members;
      DispatchRuns(p, strict, fuel, c, kt.0, 0, 0, named, slots);
      MemberLands(Decoders(p), strict, fuel, c, slots, kt.0, named,
                  ReadMember(p, strict, c, kt.0, kt.1, st.depth, slots));
    }
  }

  lemma {:induction false} MemberLands(prog: Program, strict: bool, fuel: nat, c: Codec, slots: map<string, Value>,
                                       key: string,
                    named: State, r: Outcome<(map<string, Value>, seq<Token>)>)
    requires AllFields(c.members) && DistinctNames(c.members)
    requires Exec(prog, strict, fuel, Dispatch(c.members, 0), named) == Dispatched(c, r, key, named.depth)
    ensures Block(Exec(prog, strict, fuel, Then(Dispatch(c.members, 0), AgainAfterComma()), named),
                  SlotsEnv(c.members, slots)) ==
      match r
      case Failed(err) => Raised(err)
      case Ok(now) => Turned(State(SlotsEnv(c.members, now.0), now.1, named.depth))
  {
    Step(prog, strict, fuel, Dispatch(c.members, 0), AgainAfterComma(), named);
    if r.Ok? {
      var now := State(SlotsEnv(c.members, r.value.0)[KeyVar := LKey(key)], r.value.1, named.depth);
      AgainRuns(prog, strict, fuel, now);
      KeyDropped(c, slots, r.value.0, key, now);
    }
  }

  /** Two sets of slots have the same variables. */
  lemma {:induction false} SameSlots(c: Codec, a: map<string, Value>, b: map<string, Value>, x: Name)
    requires AllFields(c.members) && DistinctNames(c.members) && x in SlotsEnv(c.members, a)
    ensures x in SlotsEnv(c.members, b)
  {
    SlotsEnvAt(c.members, a);
    SlotsEnvAt(c.members, b);
    var i :| 0 <= i < |c.members| && c.members[i].name == x.field;
    assert x == Slot(c.members[i].name);
  }

  lemma {:induction false} SlotKeys(c: Codec, a: map<string, Value>, b: map<string, Value>)
    requires AllFields(c.members) && DistinctNames(c.members)
    ensures SlotsEnv(c.members, a).Keys == SlotsEnv(c.members, b).Keys
  {
    forall x ensures x in SlotsEnv(c.members, a) <==> x in SlotsEnv(c.members, b) {
      if x in SlotsEnv(c.members, a) { SameSlots(c, a, b, x); }
      if x in SlotsEnv(c.members, b) { SameSlots(c, b, a, x); }
    }
  }

  lemma {:induction false} WithinSlots(c: Codec, slots: map<string, Value>, now: map<string, Value>, extra: Env,
                                       st: State)
    requires AllFields(c.members) && DistinctNames(c.members)
    requires st.env == SlotsEnv(c.members, now) + extra && forall x :: x in extra ==> !x.Slot?
    ensures Within(st, SlotsEnv(c.members, slots)) == State(SlotsEnv(c.members, now), st.toks, st.depth)
  {
    SlotsEnvAt(c.members, now);
    SlotKeys(c, slots, now);
    WithinKeys(st, SlotsEnv(c.members, slots), SlotsEnv(c.members, now));
  }

  lemma {:induction false} KeyDropped(c: Codec, slots: map<string, Value>, now: map<string, Value>, key: string,
                                      st: State)
    requires AllFields(c.members) && DistinctNames(c.members)
    requires st.env == SlotsEnv(c.members, now)[KeyVar := LKey(key)]
    ensures Block(Turned(st), SlotsEnv(c.members, slots)) == Turned(State(SlotsEnv(c.members, now), st.toks, st.depth))
  {
    assert st.env == SlotsEnv(c.members, now) + map[KeyVar := LKey(key)];
    WithinSlots(c, slots, now, map[KeyVar := LKey(key)], st);
    if StartsWith(st.toks, Comma) { WithinSlots(c, slots, now, map[KeyVar := LKey(key)], st.(toks := st.toks[1..])); }
  }

  ghost function Gathered(c: Codec, r: Outcome<(map<string, Value>, seq<Token>)>, depth: nat): Flow
    requires AllFields(c.members)
  {
    match r
    case Failed(err) => Raised(err)
    case Ok(st) => Normal(State(SlotsEnv(c.members, st.0), st.1, depth))
  }

  lemma {:induction false} MembersRuns(p: Codecs, strict: bool, fuel: nat, c: Codec, st: State,
                                       slots: map<string, Value>)
    requires Sound(p) && fuel >= 2 * |st.toks| + 3
    requires AllFields(c.members) && DistinctNames(c.members) && st.env == SlotsEnv(c.members, slots)
    ensures Closed(Exec(Decoders(p), strict, fuel, Forever(MemberTurn(c.members)), st), RBrace)
         == Gathered(c, ReadMembers(p, strict, c, st.toks, st.depth, slots), st.depth)
    decreases |st.toks|, 5
  {
    hide Decoders, Exec, MemberTurn, SlotsEnv, Read, ReadMember;
    MemberTurnRuns(p, strict, fuel - 1, c, st, slots);
    ForeverTurn(Decoders(p), strict, fuel, MemberTurn(c.members), st);
    if KeyAndColon(st.toks).Ok? {
      var kt := KeyAndColon(st.toks).value;
      var r := ReadMember(p, strict, c, kt.0, kt.1, st.depth, slots);
      if r.Ok? && StartsWith(r.value.1, Comma) {
        MembersRuns(p, strict, fuel - 1, c, State(SlotsEnv(c.members, r.value.0), r.value.1[1..], st.depth), r.value.0);
      }
    }
  }

  // --- the end of a decoder -----------------------------------------------------------------

  lemma {:induction false} CheckShape(prog: Program, strict: bool, fuel: nat, n: string, ms: seq<Member>, st: State)
    requires AllFields(ms) && ms != [] && !Absent(ms[0].encoding)
    requires var x := Slot(ms[0].name); x in st.env && st.env[x].LVar? && (st.env[x].v.VNone? || st.env[x].v.VSome?)
    ensures Exec(prog, strict, fuel, Checks(n, ms), st) ==
      if st.env[Slot(ms[0].name)].v.VSome? then Exec(prog, strict, fuel, Checks(n, ms[1..]), st)
      else Raised(MissingKey(n, ms[0].json))
  {
    hide ReadOnce;
    Step(prog, strict, fuel, UnlessSet(Slot(ms[0].name), RaiseMissing(n, ms[0].json)), Checks(n, ms[1..]), st);
  }

  /** The checks raise what `Finish` reports and otherwise change nothing. */
  lemma {:induction false} ChecksRun(prog: Program, strict: bool, fuel: nat, c: Codec, i: nat, st: State,
                                     slots: map<string, Value>)
    requires AllFields(c.members) && DistinctNames(c.members) && i <= |c.members|
    requires st.env == SlotsEnv(c.members, slots)
    ensures Exec(prog, strict, fuel, Checks(c.name, c.members[i..]), st) ==
      match Finish(c, slots, i)
      case Failed(err) => Raised(err)
      case Ok(_) => Normal(st)
    decreases |c.members| - i
  {
    hide Args, ReadOnce;
    if i < |c.members| {
      var ms := c.members[i..];
      var m := ms[0];
      assert ms[1..] == c.members[i + 1..];
      ChecksRun(prog, strict, fuel, c, i + 1, st, slots);
      if !Absent(m.encoding) {
        SlotsEnvAt(c.members, slots);
        assert st.env[Slot(m.name)] == SlotLocal(m, slots);
        CheckShape(prog, strict, fuel, c.name, ms, st);
      }
    }
  }

  lemma {:induction false} ConstructStep(ms: seq<Member>, env: Env)
    requires AllFields(ms) && ms != []
    ensures var arg := if Absent(ms[0].encoding) then Moved(Slot(ms[0].name)) else Taken(Slot(ms[0].name));
      Construct(FieldNames(ms), Args(ms), env) ==
        match Taking(arg, env)
        case None => None
        case Some(v) =>
          match Construct(FieldNames(ms[1..]), Args(ms[1..]), env)
          case None => None
          case Some(rest) => Some(rest[ms[0].name := v])
  {
    assert FieldNames(ms)[1..] == FieldNames(ms[1..]) && Args(ms)[1..] == Args(ms[1..]);
  }

  /** The constructor call pairs every field with its own variable. */
  lemma {:induction false} ConstructRuns(c: Codec, i: nat, env: Env, slots: map<string, Value>)
    requires AllFields(c.members) && DistinctNames(c.members) && i <= |c.members| && env == SlotsEnv(c.members, slots)
    requires Finish(c, slots, i).Ok?
    ensures Construct(FieldNames(c.members[i..]), Args(c.members[i..]), env) == Some(Finish(c, slots, i).value)
    decreases |c.members| - i
  {
    if i < |c.members| {
      var ms := c.members[i..];
      var m := ms[0];
      assert ms[1..] == c.members[i + 1..];
      SlotsEnvAt(c.members, slots);
      assert env[Slot(m.name)] == SlotLocal(m, slots);
      ConstructRuns(c, i + 1, env, slots);
      ConstructStep(ms, env);
    }
  }

  lemma {:induction false} EndingRuns(prog: Program, strict: bool, fuel: nat, c: Codec, toks: seq<Token>, depth: nat,
                   slots: map<string, Value>)
    requires AllFields(c.members) && DistinctNames(c.members)
    ensures Returned(EStruct(c.name),
              Exec(prog, strict, fuel, Then(Checks(c.name, c.members),
                                            Build(c.name, FieldNames(c.members), Args(c.members))),
                   State(SlotsEnv(c.members, slots), toks, depth)))
         == Finishing(c, Ok((slots, toks)))
  {
    hide ReadScalar, ReadRaw, ReadOnce, Checks, Args, FieldNames, SlotsEnv;
    var st := State(SlotsEnv(c.members, slots), toks, depth);
    assert c.members[0..] == c.members;
    ChecksRun(prog, strict, fuel, c, 0, st, slots);
    Step(prog, strict, fuel, Checks(c.name, c.members), Build(c.name, FieldNames(c.members), Args(c.members)), st);
    if Finish(c, slots, 0).Ok? { ConstructRuns(c, 0, st.env, slots); }
  }

  /** The object between a struct's braces, read or refused. */
  ghost function ObjectRead(p: Codecs, strict: bool, c: Codec, toks: seq<Token>,
                            depth: nat): Outcome<(map<string, Value>, seq<Token>)> {
    if depth + 1 > MAX_NESTING_DEPTH then Failed(TooDeep)
    else if !StartsWith(toks, LBrace) then Failed(Expected(LBrace))
    else if StartsWith(toks[1..], RBrace) then Ok((map[], toks[2..]))
    else ReadMembers(p, strict, c, toks[1..], depth + 1, map[])
  }

  lemma {:induction false} ObjectRuns(p: Codecs, strict: bool, fuel: nat, c: Codec, toks: seq<Token>, depth: nat)
    requires Sound(p) && AllFields(c.members) && DistinctNames(c.members) && fuel >= 2 * |toks| + 1
    ensures Exec(Decoders(p), strict, fuel, Bracketed(LBrace, RBrace, MemberTurn(c.members)),
                 State(SlotsEnv(c.members, map[]), toks, depth))
         == Gathered(c, ObjectRead(p, strict, c, toks, depth), depth)
    decreases |toks|, 0, EStruct(c.name), 0
  {
    hide Decoders, Exec, Read, ReadMembers, MemberTurn, SlotsEnv;
    var st := State(SlotsEnv(c.members, map[]), toks, depth);
    BracketedRuns(Decoders(p), strict, fuel, LBrace, RBrace, MemberTurn(c.members), st);
    if depth + 1 <= MAX_NESTING_DEPTH && StartsWith(toks, LBrace) && !StartsWith(toks[1..], RBrace) {
      var inside := State(st.env, toks[1..], depth + 1);
      MembersRuns(p, strict, fuel, c, inside, map[]);
      var r := ReadMembers(p, strict, c, toks[1..], depth + 1, map[]);
      LevelGathered(c, r, depth);
    }
  }

  lemma {:induction false} LevelGathered(c: Codec, r: Outcome<(map<string, Value>, seq<Token>)>, depth: nat)
    requires AllFields(c.members) && DistinctNames(c.members)
    ensures Raising(Block(Gathered(c, r, depth + 1), SlotsEnv(c.members, map[]))) == Gathered(c, r, depth)
  {
    if r.Ok? {
      SlotKeys(c, map[], r.value.0);
      WithinKeys(State(SlotsEnv(c.members, r.value.0), r.value.1, depth + 1), SlotsEnv(c.members, map[]),
                 SlotsEnv(c.members, r.value.0));
    }
  }

  lemma {:induction false} BodyRuns(p: Codecs, strict: bool, fuel: nat, c: Codec, toks: seq<Token>, depth: nat)
    requires Sound(p) && c.name in p && p[c.name] == c && Decodable(c) && fuel >= 2 * |toks| + 1
    ensures Returned(EStruct(c.name), Exec(Decoders(p), strict, fuel, DecoderBody(c), State(map[], toks, depth)))
         == ReadStruct(p, strict, c.name, toks, depth)
    decreases |toks|, 0, EStruct(c.name), 1
  {
    hide Decoders, Exec, Checks, SlotsEnv;
    assert SoundCodec(p[c.name]);
    var objectPart := Bracketed(LBrace, RBrace, MemberTurn(c.members));
    var ending := Then(Checks(c.name, c.members), Build(c.name, FieldNames(c.members), Args(c.members)));
    var st := State(map[], toks, depth);
    var slotted := State(SlotsEnv(c.members, map[]), toks, depth);
    Step(Decoders(p), strict, fuel, Then(Slots(c.members), objectPart), ending, st);
    Step(Decoders(p), strict, fuel, Slots(c.members), objectPart, st);
    SlotsRuns(Decoders(p), strict, fuel, c.members, st);
    assert map[] + SlotsEnv(c.members, map[]) == SlotsEnv(c.members, map[]);
    ObjectRuns(p, strict, fuel, c, toks, depth);
    var r := ObjectRead(p, strict, c, toks, depth);
    if r.Ok? { EndingRuns(Decoders(p), strict, fuel, c, r.value.1, depth, r.value.0); }
    assert ReadStruct(p, strict, c.name, toks, depth) == Finishing(c, r);
  }

  lemma {:induction false} ReadOnceRuns(p: Codecs, strict: bool, fuel: nat, what: Encoding, st: State)
    requires Sound(p) && fuel >= 2 * |st.toks| + 2 && !Composite(what)
    ensures ReadOnce(Decoders(p), strict, fuel, what, st) == Read(p, strict, what, st.toks, st.depth)
    decreases |st.toks|, 0, what, 2
  {
    hide Decoders;
    if what.EStruct? { DecoderAt(p, what.name); }
    if what.EStruct? && what.name in p && Decodable(p[what.name]) {
      BodyRuns(p, strict, fuel - 1, p[what.name], st.toks, st.depth);
    }
  }

  // --- the whole document ---------------------------------------------------------------------

  /** `unmarshal_json_<struct>`, run: the decoder and then `sc.end()`. */
  function RunUnmarshal(p: Codecs, strict: bool, fuel: nat, n: string, toks: seq<Token>): Outcome<Value>
    requires Apart(p)
  {
    match ReadOnce(Decoders(p), strict, fuel, EStruct(n), State(map[], toks, 0))
    case Failed(err) => Failed(err)
    case Ok(vt) => if vt.1 == [] then Ok(vt.0) else Failed(Trailing)
  }

  /**
   The emitted decoder is `Read` on every input: with this much fuel it always
   ends, with the same value or the same error.
   */
  lemma {:induction false} UnmarshalRuns(p: Codecs, strict: bool, fuel: nat, n: string, toks: seq<Token>)
    requires Sound(p) && fuel >= 2 * |toks| + 2
    ensures RunUnmarshal(p, strict, fuel, n, toks) == JsonIdentity.Unmarshal(p, strict, n, toks)
  {
    ReadOnceRuns(p, strict, fuel, EStruct(n), State(map[], toks, 0));
  }
}
