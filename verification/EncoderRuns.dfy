/** Running the emitted encoder prints the value, whatever order dictionaries are iterated in. */
module EncoderRuns {
  import opened Common
  import opened JsonModel
  import opened JsonText
  import opened JsonRoundTrip
  import opened EmitEncoder

  // --- temporaries do not collide ---------------------------------------------------

  predicate Below(x: Name, n: nat) { x.Temp? ==> x.n <= n }

  predicate EnvBelow(env: Env, n: nat) { forall x :: x in env ==> Below(x, n) }

  predicate ExprBelow(e: Expr, n: nat) {
    match e
    case Var(x) => Below(x, n)
    case Attr(of, _) => ExprBelow(of, n)
    case Payload(of) => ExprBelow(of, n)
    case At(of, key) => ExprBelow(of, n) && Below(key, n)
  }

  /** Everything in scope before is in scope after, with the value it had. */
  predicate Kept(env: Env, now: Env) {
    forall x :: x in env ==> x in now && now[x] == env[x]
  }

  lemma {:induction false} EvalKept(e: Expr, env: Env, now: Env)
    requires Kept(env, now) && Eval(e, env).Some?
    ensures Eval(e, now) == Eval(e, env)
  {
    match e
    case Var(x) =>
    case Attr(of, _) => EvalKept(of, env, now);
    case Payload(of) => EvalKept(of, env, now);
    case At(of, key) => EvalKept(of, env, now);
  }

  lemma {:induction false} BelowMore(e: Expr, n: nat, m: nat)
    requires ExprBelow(e, n) && n <= m
    ensures ExprBelow(e, m)
  {
    match e
    case Var(x) =>
    case Attr(of, _) => BelowMore(of, n, m);
    case Payload(of) => BelowMore(of, n, m);
    case At(of, key) => BelowMore(of, n, m);
  }

  lemma {:induction false} LeaveKept(inner: State, outer: Env)
    requires Kept(outer, inner.env)
    ensures Leave(inner, outer) == State(outer, inner.out)
  {
    assert (map x | x in outer && x in inner.env :: inner.env[x]) == outer;
  }

  // --- the promise of one run ---------------------------------------------------------

  /** The run went right: it wrote `text`, disturbed nothing, and used names up to `n`. */
  ghost predicate Wrote_(st: State, text: seq<Token>, n: nat, r: Outcome<State>) {
    && r.Ok?
    && r.value.out == st.out + text
    && Kept(st.env, r.value.env)
    && EnvBelow(r.value.env, n)
  }

  /** A value to be encoded, an expression that yields it, and fuel for the calls in it. */
  ghost predicate Pending(p: Codecs, order: Order, fuel: nat, what: Encoding, e: Expr, n: nat, st: State, v: Value) {
    && Accepted(p) && Enumerates(order) && StructsIn(what) <= p.Keys
    && HasType(p, what, v) && Eval(e, st.env) == Some(v)
    && ExprBelow(e, n) && EnvBelow(st.env, n)
    && |Print(p, what, v)| <= fuel
  }

  lemma {:induction false} EncodeRuns(p: Codecs, order: Order, fuel: nat, what: Encoding, e: Expr, n: nat, st: State,
                                      v: Value)
    requires Pending(p, order, fuel, what, e, n, st, v)
    ensures Wrote_(st, Print(p, what, v), n + Temps(what), Exec(Encoders(p), order, fuel, Encode(what, e, n), st))
    decreases v, 3, 0
  {
    hide Encoders, Exec, Print, HasType, Wrote_, Pending;
    match what
    case EStruct(name) => CallRuns(p, order, fuel, name, e, n, st, v);
    case EOptional(a) => OptionalRuns(p, order, fuel, a, e, n, st, v);
    case EList(a) => ListRuns(p, order, fuel, a, e, n, st, v);
    case EDict(a) => DictRuns(p, order, fuel, a, e, n, st, v);
    case _ => ScalarRuns(p, order, fuel, what, e, n, st, v);
  }

  lemma {:induction false} OptionalRuns(p: Codecs, order: Order, fuel: nat, a: Encoding, e: Expr, n: nat, st: State,
                                        v: Value)
    requires Pending(p, order, fuel, EOptional(a), e, n, st, v)
    ensures Wrote_(st, Print(p, EOptional(a), v), n + Temps(a),
                   Exec(Encoders(p), order, fuel, Encode(EOptional(a), e, n), st))
    decreases v, 2, 0
  {
    hide Encoders, ExecItems, ExecKeys, Encode, Accepted, Enumerates;
    var yes, no := Encode(a, Payload(e), n), Append([NullWord]);
    assert Encode(EOptional(a), e, n) == IfHolds(e, yes, no) by { EncodeOptional(a, e, n); }
    if v.VSome? {
      EncodeRuns(p, order, fuel, a, Payload(e), n, st, v.inner);
      LeaveKept(Exec(Encoders(p), order, fuel, yes, st).value, st.env);
    } else {
      LeaveKept(st.(out := st.out + [NullWord]), st.env);
    }
  }

  lemma {:induction false} EncodeOptional(a: Encoding, e: Expr, n: nat)
    ensures Encode(EOptional(a), e, n) == IfHolds(e, Encode(a, Payload(e), n), Append([NullWord]))
  {
  }

  lemma {:induction false} ScalarRuns(p: Codecs, order: Order, fuel: nat, what: Encoding, e: Expr, n: nat, st: State,
                                      v: Value)
    requires Pending(p, order, fuel, what, e, n, st, v) && !Composite(what) && !what.EStruct?
    ensures Wrote_(st, Print(p, what, v), n + Temps(what), Exec(Encoders(p), order, fuel, Encode(what, e, n), st))
  {
    hide Encoders, ExecItems, ExecKeys, Accepted, Enumerates, Sort, SortedKeys;
  }

  // --- lists ----------------------------------------------------------------------------

  /** The environment a loop leaves: its `first` flag is down once it has gone round. */
  function Lowered(env: Env, first: Name, round: bool): Env {
    if round then env[first := LFlag(false)] else env
  }

  lemma {:induction false} Step(prog: Program, order: Order, fuel: nat, a: Stmt, b: Stmt, st: State, mid: State)
    requires Exec(prog, order, fuel, a, st) == Ok(mid)
    ensures Exec(prog, order, fuel, Then(a, b), st) == Exec(prog, order, fuel, b, mid)
  {
  }

  lemma {:induction false} Steps(prog: Program, order: Order, fuel: nat, a: Stmt, b: Stmt, c: Stmt, d: Stmt,
                                 s0: State, s1: State,
              s2: State, s3: State)
    requires Exec(prog, order, fuel, a, s0) == Ok(s1)
    requires Exec(prog, order, fuel, b, s1) == Ok(s2)
    requires Exec(prog, order, fuel, c, s2) == Ok(s3)
    ensures Exec(prog, order, fuel, Then(Then(a, b), Then(c, d)), s0) == Exec(prog, order, fuel, d, s3)
  {
    Step(prog, order, fuel, a, b, s0, s1);
    Step(prog, order, fuel, Then(a, b), Then(c, d), s0, s2);
    Step(prog, order, fuel, c, d, s2, s3);
  }

  /** `if <flag>: out.append(',')`, and the same with the flag the other way up. */
  lemma {:induction false} CommaIf(prog: Program, order: Order, fuel: nat, x: Name, want: bool, st: State)
    requires x in st.env && st.env[x].LFlag?
    ensures Exec(prog, order, fuel, IfFlag(x, want, Append([Comma])), st)
      == Ok(State(st.env, st.out + CommaUnless(st.env[x].up != want)))
  {
    if st.env[x].up == want {
      assert Exec(prog, order, fuel, Append([Comma]), st) == Ok(State(st.env, st.out + [Comma]));
      LeaveKept(State(st.env, st.out + [Comma]), st.env);
    } else {
      assert st.out + [] == st.out;
    }
  }

  lemma {:induction false} CommaThenRuns(prog: Program, order: Order, fuel: nat, first: Name, rest: Stmt, st: State)
    requires first in st.env && st.env[first].LFlag?
    ensures Exec(prog, order, fuel, CommaThen(first, rest), st)
      == Exec(prog, order, fuel, rest, State(st.env[first := LFlag(false)], st.out + CommaUnless(st.env[first].up)))
  {
    var mid := State(st.env, st.out + CommaUnless(st.env[first].up));
    CommaIf(prog, order, fuel, first, false, st);
    Step(prog, order, fuel, IfFlag(first, false, Append([Comma])), Then(SetFlag(first, false), rest), st, mid);
    Step(prog, order, fuel, SetFlag(first, false), rest, mid, State(st.env[first := LFlag(false)], mid.out));
  }

  lemma {:induction false} ItemsRun(p: Codecs, order: Order, fuel: nat, a: Encoding, n: nat, st: State,
                                    items: seq<Value>)
    requires Accepted(p) && Enumerates(order) && StructsIn(a) <= p.Keys && AllTyped(p, a, items)
    requires var item, first := Temp("item", n + 1), Temp("first", n + 2);
      EnvBelow(st.env, n + 2) && item !in st.env && first in st.env && st.env[first].LFlag?
    requires |PrintItems(p, a, items, true)| <= fuel
    ensures var item, first := Temp("item", n + 1), Temp("first", n + 2);
      ExecItems(Encoders(p), order, fuel, item, items, CommaThen(first, Encode(a, Var(item), n + 2)), st)
      == Ok(State(Lowered(st.env, first, items != []), st.out + PrintItems(p, a, items, st.env[first].up)))
    decreases items, 2, 0
  {
    hide Encoders, Exec, HasType, Temps, Print, Encode, Eval, Accepted, Enumerates, StructsIn, Block, ScalarTokens,
         CommaThen;
    var item, first := Temp("item", n + 1), Temp("first", n + 2);
    if items == [] {
      assert st.out + [] == st.out;
    } else {
      ItemRuns(p, order, fuel, a, n, st, items);
      var next := State(Lowered(st.env, first, true), st.out + CommaUnless(st.env[first].up) + Print(p, a, items[0]));
      ItemsShorter(p, a, items);
      ItemsRun(p, order, fuel, a, n, next, items[1..]);
      assert next.env[first := LFlag(false)] == next.env;
      ItemsAdd(p, a, items, st.out, st.env[first].up);
    }
  }

  lemma {:induction false} ItemRuns(p: Codecs, order: Order, fuel: nat, a: Encoding, n: nat, st: State,
                                    items: seq<Value>)
    requires Accepted(p) && Enumerates(order) && StructsIn(a) <= p.Keys && AllTyped(p, a, items) && items != []
    requires var item, first := Temp("item", n + 1), Temp("first", n + 2);
      EnvBelow(st.env, n + 2) && item !in st.env && first in st.env && st.env[first].LFlag?
    requires |PrintItems(p, a, items, true)| <= fuel
    ensures var item, first := Temp("item", n + 1), Temp("first", n + 2);
      Block(Exec(Encoders(p), order, fuel, CommaThen(first, Encode(a, Var(item), n + 2)),
                 State(st.env[item := LValue(items[0])], st.out)), st.env)
      == Ok(State(Lowered(st.env, first, true), st.out + CommaUnless(st.env[first].up) + Print(p, a, items[0])))
    decreases items, 1, 0
  {
    hide Encoders, Exec, HasType, Temps, Encode, PrintItems, Sort, SortedKeys, Print, CommaThen, Get, CommaUnless;
    var item, first := Temp("item", n + 1), Temp("first", n + 2);
    var x := items[0];
    var comma := CommaUnless(st.env[first].up);
    var start := State(st.env[item := LValue(x)], st.out);
    var inside := State(start.env[first := LFlag(false)], st.out + comma);
    CommaThenRuns(Encoders(p), order, fuel, first, Encode(a, Var(item), n + 2), start);
    ItemsShorter(p, a, items);
    EncodeRuns(p, order, fuel, a, Var(item), n + 2, inside, x);
    var done := Exec(Encoders(p), order, fuel, Encode(a, Var(item), n + 2), inside).value;
    var next := State(Lowered(st.env, first, true), st.out + comma + Print(p, a, x));
    assert Leave(done, st.env) == next by {
      assert (map y | y in st.env && y in done.env :: done.env[y]) == next.env;
    }
  }

  lemma {:induction false} ItemsAdd(p: Codecs, a: Encoding, items: seq<Value>, out: seq<Token>, first: bool)
    requires items != []
    ensures out + CommaUnless(first) + Print(p, a, items[0]) + PrintItems(p, a, items[1..], false)
      == out + PrintItems(p, a, items, first)
  {
    hide Print, HasType;
    assert PrintItems(p, a, items, first)
      == CommaUnless(first) + Print(p, a, items[0]) + PrintItems(p, a, items[1..], false);
  }

  lemma {:induction false} ItemsShorter(p: Codecs, a: Encoding, items: seq<Value>)
    requires items != []
    ensures |Print(p, a, items[0])| <= |PrintItems(p, a, items, true)|
    ensures |PrintItems(p, a, items[1..], true)| <= |PrintItems(p, a, items, true)|
  {
    hide Print;
    ItemsOpen(p, a, items);
    if items[1..] != [] { ItemsOpen(p, a, items[1..]); }
  }

  /** What a loop leaves in scope: its flag, next to everything that was there. */
  lemma {:induction false} LoopKept(env: Env, n: nat, first: Name, round: bool)
    requires EnvBelow(env, n) && first !in env && Below(first, n)
    ensures Kept(env, Lowered(env[first := LFlag(true)], first, round))
    ensures EnvBelow(Lowered(env[first := LFlag(true)], first, round), n)
  {
  }

  lemma {:induction false} EnvMore(env: Env, n: nat, m: nat)
    requires EnvBelow(env, n) && n <= m
    ensures EnvBelow(env, m)
  {
  }

  lemma {:induction false} ListPending(p: Codecs, order: Order, fuel: nat, a: Encoding, e: Expr, n: nat, st: State,
                                       v: Value)
    requires Pending(p, order, fuel, EList(a), e, n, st, v)
    ensures v.VList? && StructsIn(a) <= p.Keys && AllTyped(p, a, v.items)
    ensures |PrintItems(p, a, v.items, true)| <= fuel
    ensures [LBracket] + PrintItems(p, a, v.items, true) + [RBracket] == Print(p, EList(a), v)
  {
    hide PrintItems, Accepted, Enumerates;
  }

  lemma {:induction false} ListRuns(p: Codecs, order: Order, fuel: nat, a: Encoding, e: Expr, n: nat, st: State,
                                    v: Value)
    requires Pending(p, order, fuel, EList(a), e, n, st, v)
    ensures Wrote_(st, Print(p, EList(a), v), n + Temps(EList(a)),
                   Exec(Encoders(p), order, fuel, Encode(EList(a), e, n), st))
    decreases v, 2, 0
  {
    hide Encoders, Exec, ExecItems, ListStmt, Print, PrintItems, HasType, Accepted, Enumerates, StructsIn, AllTyped;
    var first := Temp("first", n + 2);
    var begun := State(st.env[first := LFlag(true)], st.out + [LBracket]);
    EvalKept(e, st.env, begun.env);
    ListPending(p, order, fuel, a, e, n, st, v);
    ItemsRun(p, order, fuel, a, n, begun, v.items);
    ListSteps(Encoders(p), order, fuel, e, n, Encode(a, Var(Temp("item", n + 1)), n + 2), st, v.items,
              PrintItems(p, a, v.items, true));
    assert st.out + [LBracket] + PrintItems(p, a, v.items, true) + [RBracket] == st.out + Print(p, EList(a), v);
    EnvMore(st.env, n, n + Temps(EList(a)));
    LoopKept(st.env, n + Temps(EList(a)), first, v.items != []);
  }

  lemma {:induction false} ListSteps(prog: Program, order: Order, fuel: nat, e: Expr, n: nat, each: Stmt, st: State,
                                     items: seq<Value>,
                  text: seq<Token>)
    requires var item, first := Temp("item", n + 1), Temp("first", n + 2);
      var begun := State(st.env[first := LFlag(true)], st.out + [LBracket]);
      && item !in st.env && first !in st.env
      && Eval(e, begun.env) == Some(VList(items))
      && ExecItems(prog, order, fuel, item, items, CommaThen(first, each), begun)
         == Ok(State(Lowered(begun.env, first, items != []), begun.out + text))
    ensures var first := Temp("first", n + 2);
      Exec(prog, order, fuel, ListStmt(e, n, each), st)
      == Ok(State(Lowered(st.env[first := LFlag(true)], first, items != []), st.out + [LBracket] + text + [RBracket]))
  {
    var item, first := Temp("item", n + 1), Temp("first", n + 2);
    var begun := State(st.env[first := LFlag(true)], st.out + [LBracket]);
    var looped := State(Lowered(begun.env, first, items != []), begun.out + text);
    Steps(prog, order, fuel, Append([LBracket]), DeclFlag(first, true), ForItems(item, e, CommaThen(first, each)),
          Append([RBracket]),
          st, State(st.env, st.out + [LBracket]), begun, looped);
  }

  // --- dictionaries -----------------------------------------------------------------------

  /** Sorting forgets the order the keys were met in. */
  lemma {:induction false} SortedAlike(order: Order, s: set<string>)
    requires Enumerates(order)
    ensures Sort([] + order(s)) == SortedKeys(s)
  {
    assert [] + order(s) == order(s);
    SortAscending(order(s));
    SortAscending(SetToSeq(s));
    AscendingUnique(Sort(order(s)), SortedKeys(s));
  }

  lemma {:induction false} KeysRun(p: Codecs, order: Order, fuel: nat, a: Encoding, e: Expr, n: nat, st: State,
                                   v: Value, ks: seq<string>)
    requires Accepted(p) && Enumerates(order) && StructsIn(a) <= p.Keys && EntriesTyped(p, a, v, ks)
    requires Eval(e, st.env) == Some(v) && ExprBelow(e, n) && EnvBelow(st.env, n + 4)
    requires var key, first := Temp("key", n + 3), Temp("first", n + 4);
      key !in st.env && first in st.env && st.env[first].LFlag?
    requires |PrintEntries(p, a, v, ks, true)| <= fuel
    ensures var key, first := Temp("key", n + 3), Temp("first", n + 4);
      ExecKeys(Encoders(p), order, fuel, key, ks,
               EntryStmt(n, Encode(a, At(e, key), n + 4)), st)
      == Ok(State(Lowered(st.env, first, ks != []), st.out + PrintEntries(p, a, v, ks, st.env[first].up)))
    decreases v, 0, 1 + |ks|
  {
    hide Encoders, Sort, SetToSeq, SortedKeys, Exec, HasType, Temps, Print, Encode, Eval, Accepted, Enumerates,
         PrintItems, StructsIn, Block, Lowered, EnvBelow;
    var key, first := Temp("key", n + 3), Temp("first", n + 4);
    if ks == [] {
      assert st.out + [] == st.out;
      assert Lowered(st.env, first, false) == st.env by { LoweredNot(st.env, first); }
    } else {
      KeyRuns(p, order, fuel, a, e, n, st, v, ks);
      var comma := CommaUnless(st.env[first].up);
      var x := v.entries[ks[0]];
      var next := State(Lowered(st.env, first, true), st.out + comma + [Text(ks[0]), Colon] + Print(p, a, x));
      LoweredEval(e, n, st.env, first);
      LoweredOnce(st.env, n + 4, first, true);
      EntriesShorter(p, a, v, ks);
      KeysRun(p, order, fuel, a, e, n, next, v, ks[1..]);
      LoweredOnce(st.env, n + 4, first, ks[1..] != []);
      EntriesAdd(p, a, v, ks, st.out, st.env[first].up);
    }
  }

  lemma {:induction false} LoweredNot(env: Env, first: Name)
    ensures Lowered(env, first, false) == env
  {
  }

  /** Once down, the flag stays down. */
  lemma {:induction false} LoweredOnce(env: Env, n: nat, first: Name, again: bool)
    requires first in env && EnvBelow(env, n)
    ensures var now := Lowered(env, first, true);
      && now.Keys == env.Keys && now[first] == LFlag(false) && EnvBelow(now, n) && Lowered(now, first, again) == now
  {
    var now := Lowered(env, first, true);
    assert now[first := LFlag(false)] == now;
  }

  /** Lowering a loop's flag does not touch an expression of older names. */
  lemma {:induction false} LoweredEval(e: Expr, n: nat, env: Env, first: Name)
    requires ExprBelow(e, n) && !Below(first, n)
    ensures Eval(e, Lowered(env, first, true)) == Eval(e, env)
  {
    match e
    case Var(x) =>
    case Attr(of, _) => LoweredEval(of, n, env, first);
    case Payload(of) => LoweredEval(of, n, env, first);
    case At(of, key) => LoweredEval(of, n, env, first);
  }

  lemma {:induction false} EntriesAdd(p: Codecs, a: Encoding, v: Value, ks: seq<string>, out: seq<Token>, first: bool)
    requires ks != [] && EntriesTyped(p, a, v, ks)
    ensures out + CommaUnless(first) + [Text(ks[0]), Colon] + Print(p, a, v.entries[ks[0]])
      + PrintEntries(p, a, v, ks[1..], false)
      == out + PrintEntries(p, a, v, ks, first)
  {
    Regroup(out, CommaUnless(first), [Text(ks[0]), Colon], Print(p, a, v.entries[ks[0]]),
            PrintEntries(p, a, v, ks[1..], false));
  }

  lemma {:induction false} Regroup(a: seq<Token>, b: seq<Token>, c: seq<Token>, d: seq<Token>, e: seq<Token>)
    ensures a + b + c + d + e == a + (b + c + d + e)
  {
  }

  lemma {:induction false} EntriesShorter(p: Codecs, a: Encoding, v: Value, ks: seq<string>)
    requires ks != [] && EntriesTyped(p, a, v, ks)
    ensures |Print(p, a, v.entries[ks[0]])| <= |PrintEntries(p, a, v, ks, true)|
    ensures |PrintEntries(p, a, v, ks[1..], true)| <= |PrintEntries(p, a, v, ks, true)|
  {
    hide Print, HasType;
    EntriesOpen(p, a, v, ks);
    if ks[1..] != [] { EntriesOpen(p, a, v, ks[1..]); }
  }

  lemma {:induction false} KeyRuns(p: Codecs, order: Order, fuel: nat, a: Encoding, e: Expr, n: nat, st: State,
                                   v: Value, ks: seq<string>)
    requires Accepted(p) && Enumerates(order) && StructsIn(a) <= p.Keys && EntriesTyped(p, a, v, ks) && ks != []
    requires Eval(e, st.env) == Some(v) && ExprBelow(e, n) && EnvBelow(st.env, n + 4)
    requires var key, first := Temp("key", n + 3), Temp("first", n + 4);
      key !in st.env && first in st.env && st.env[first].LFlag?
    requires |PrintEntries(p, a, v, ks, true)| <= fuel
    ensures var key, first := Temp("key", n + 3), Temp("first", n + 4);
      Block(Exec(Encoders(p), order, fuel,
                 EntryStmt(n, Encode(a, At(e, key), n + 4)),
                 State(st.env[key := LText(ks[0])], st.out)), st.env)
      == Ok(State(Lowered(st.env, first, true),
                  st.out + CommaUnless(st.env[first].up) + [Text(ks[0]), Colon] + Print(p, a, v.entries[ks[0]])))
    decreases v, 0, 0
  {
    hide Encoders, Sort, SetToSeq, SortedKeys, ExecItems, ExecKeys, HasType, Temps, Print, PrintEntries, ScalarTokens,
         EvalTest, Enumerates;
    var key, first := Temp("key", n + 3), Temp("first", n + 4);
    var prog := Encoders(p);
    var x := v.entries[ks[0]];
    var comma := CommaUnless(st.env[first].up);
    var start := State(st.env[key := LText(ks[0])], st.out);
    var each := Encode(a, At(e, key), n + 4);
    var low := State(start.env[first := LFlag(false)], st.out + comma);
    var named := State(low.env, low.out + [Text(ks[0])]);
    var inside := State(low.env, low.out + [Text(ks[0])] + [Colon]);
    CommaThenRuns(prog, order, fuel, first, Then(AppendText(key), Then(Append([Colon]), each)), start);
    Step(prog, order, fuel, AppendText(key), Then(Append([Colon]), each), low, named);
    Step(prog, order, fuel, Append([Colon]), each, named, inside);
    EvalOlder(e, n, st.env, inside.env);
    BelowMore(e, n, n + 4);
    EntriesShorter(p, a, v, ks);
    EncodeRuns(p, order, fuel, a, At(e, key), n + 4, inside, x);
    var done := Exec(prog, order, fuel, each, inside).value;
    EntryLeaves(st, done, first, key, comma, ks[0], Print(p, a, x));
  }

  /** Leaving one turn of the key loop: only the flag has changed outside. */
  lemma {:induction false} EntryLeaves(st: State, done: State, first: Name, key: Name, comma: seq<Token>,
                                       name: string, text: seq<Token>)
    requires first in st.env && key !in st.env
    requires Kept(st.env[key := LText(name)][first := LFlag(false)], done.env)
    requires done.out == st.out + comma + [Text(name)] + [Colon] + text
    ensures Leave(done, st.env) == State(Lowered(st.env, first, true), st.out + comma + [Text(name), Colon] + text)
  {
    var inner := st.env[key := LText(name)][first := LFlag(false)];
    forall y | y in st.env ensures y in done.env && done.env[y] == Lowered(st.env, first, true)[y] {
      assert y in inner;
    }
    assert (map y | y in st.env && y in done.env :: done.env[y]) == Lowered(st.env, first, true);
    assert st.out + comma + [Text(name)] + [Colon] == st.out + comma + [Text(name), Colon];
  }

  /** An expression of names up to `n` sees only those names. */
  lemma {:induction false} EvalOlder(e: Expr, n: nat, env: Env, now: Env)
    requires ExprBelow(e, n)
    requires forall x :: Below(x, n) ==> Get(env, x) == Get(now, x)
    ensures Eval(e, now) == Eval(e, env)
  {
    match e
    case Var(x) => assert Get(env, x) == Get(now, x);
    case Attr(of, _) => EvalOlder(of, n, env, now);
    case Payload(of) => EvalOlder(of, n, env, now);
    case At(of, key) => assert Get(env, key) == Get(now, key); EvalOlder(of, n, env, now);
  }

  /** What is known of a dictionary that is to be encoded, key by key. */
  lemma {:induction false} DictPending(p: Codecs, order: Order, fuel: nat, a: Encoding, e: Expr, n: nat, st: State,
                                       v: Value)
    requires Pending(p, order, fuel, EDict(a), e, n, st, v)
    ensures v.VDict? && StructsIn(a) <= p.Keys && EntriesTyped(p, a, v, SortedKeys(v.entries.Keys))
    ensures Sort([] + order(v.entries.Keys)) == SortedKeys(v.entries.Keys)
    ensures |PrintEntries(p, a, v, SortedKeys(v.entries.Keys), true)| <= fuel
  {
    hide Encoders, Sort, SetToSeq, PrintEntries, Accepted;
    SortedAlike(order, v.entries.Keys);
  }

  lemma {:induction false} DictRuns(p: Codecs, order: Order, fuel: nat, a: Encoding, e: Expr, n: nat, st: State,
                                    v: Value)
    requires Pending(p, order, fuel, EDict(a), e, n, st, v)
    ensures Wrote_(st, Print(p, EDict(a), v), n + Temps(EDict(a)),
                   Exec(Encoders(p), order, fuel, Encode(EDict(a), e, n), st))
    decreases v, 2, 0
  {
    hide Encoders, Exec, Print, HasType, Encode, Sort, SetToSeq, SortedKeys, Eval, PrintEntries, Lowered, Distinct;
    var keys := Temp("keys", n + 1);
    DictPending(p, order, fuel, a, e, n, st, v);
    DictWith(p, order, fuel, a, e, n, st, v, SortedKeys(v.entries.Keys));
    EnvMore(st.env, n, n + Temps(EDict(a)));
    var sorted := st.env[keys := LKeys(SortedKeys(v.entries.Keys))];
    LoopKept(sorted, n + Temps(EDict(a)), Temp("first", n + 4), SortedKeys(v.entries.Keys) != []);
    assert Kept(st.env, sorted);
  }

  lemma {:induction false} DictWith(p: Codecs, order: Order, fuel: nat, a: Encoding, e: Expr, n: nat, st: State,
                                    v: Value, ks: seq<string>)
    requires Accepted(p) && Enumerates(order) && StructsIn(a) <= p.Keys
    requires Eval(e, st.env) == Some(v) && ExprBelow(e, n) && EnvBelow(st.env, n)
    requires v.VDict? && ks == SortedKeys(v.entries.Keys) && Sort([] + order(v.entries.Keys)) == ks
    requires EntriesTyped(p, a, v, ks) && |PrintEntries(p, a, v, ks, true)| <= fuel
    ensures Exec(Encoders(p), order, fuel, Encode(EDict(a), e, n), st)
      == Ok(State(Lowered(st.env[Temp("keys", n + 1) := LKeys(ks)][Temp("first", n + 4) := LFlag(true)],
                          Temp("first", n + 4), ks != []),
                  st.out + Print(p, EDict(a), v)))
    decreases v, 1, 0
  {
    hide Encoders, Exec, HasType, Print, PrintEntries, Sort, SortedKeys, Accepted, Enumerates;
    var keys, first := Temp("keys", n + 1), Temp("first", n + 4);
    var begun := State(st.env[keys := LKeys(ks)][first := LFlag(true)], st.out + [LBrace]);
    EvalKept(e, st.env, begun.env);
    KeysRun(p, order, fuel, a, e, n, begun, v, ks);
    DictSteps(Encoders(p), order, fuel, e, n, Encode(a, At(e, Temp("key", n + 3)), n + 4), st, v.entries, ks,
              PrintEntries(p, a, v, ks, true));
    DictText(p, a, v, ks, st.out);
  }

  lemma {:induction false} DictText(p: Codecs, a: Encoding, v: Value, ks: seq<string>, out: seq<Token>)
    requires v.VDict? && ks == SortedKeys(v.entries.Keys)
    ensures out + [LBrace] + PrintEntries(p, a, v, ks, true) + [RBrace] == out + Print(p, EDict(a), v)
  {
  }

  lemma {:induction false} DictSteps(prog: Program, order: Order, fuel: nat, e: Expr, n: nat, each: Stmt, st: State,
                  entries: map<string, Value>, ks: seq<string>, text: seq<Token>)
    requires Eval(e, st.env) == Some(VDict(entries)) && Sort([] + order(entries.Keys)) == ks
    requires Temp("keys", n + 1) !in st.env && Temp("entry", n + 2) !in st.env
    requires Temp("key", n + 3) !in st.env && Temp("first", n + 4) !in st.env
    requires var keys, key, first := Temp("keys", n + 1), Temp("key", n + 3), Temp("first", n + 4);
      var begun := State(st.env[keys := LKeys(ks)][first := LFlag(true)], st.out + [LBrace]);
      ExecKeys(prog, order, fuel, key, ks, EntryStmt(n, each), begun)
      == Ok(State(Lowered(begun.env, first, ks != []), begun.out + text))
    ensures Exec(prog, order, fuel, DictStmt(e, n, each), st)
      == Ok(State(Lowered(st.env[Temp("keys", n + 1) := LKeys(ks)][Temp("first", n + 4) := LFlag(true)],
                          Temp("first", n + 4), ks != []),
                  st.out + [LBrace] + text + [RBrace]))
  {
    var keys, entry, key, first := Temp("keys", n + 1), Temp("entry", n + 2), Temp("key", n + 3), Temp("first", n + 4);
    var loop := ForKeys(key, keys, EntryStmt(n, each));
    var opening := State(st.env, st.out + [LBrace]);
    var sorted := State(st.env[keys := LKeys(ks)], opening.out);
    var begun := State(sorted.env[first := LFlag(true)], sorted.out);
    var looped := State(Lowered(begun.env, first, ks != []), begun.out + text);
    GatherRuns(prog, order, fuel, e, keys, entry, opening, entries, ks);
    assert Exec(prog, order, fuel, loop, begun) == Ok(looped);
    Steps(prog, order, fuel, Append([LBrace]), GatherKeys(e, keys, entry), DeclFlag(first, true),
          Then(loop, Append([RBrace])), st, opening, sorted, begun);
    Step(prog, order, fuel, loop, Append([RBrace]), begun, looped);
  }

  lemma {:induction false} GatherRuns(prog: Program, order: Order, fuel: nat, e: Expr, keys: Name, entry: Name,
                                      st: State,
                   entries: map<string, Value>, ks: seq<string>)
    requires Eval(e, st.env) == Some(VDict(entries)) && Sort([] + order(entries.Keys)) == ks
    requires keys !in st.env && entry !in st.env && keys != entry
    ensures Exec(prog, order, fuel, GatherKeys(e, keys, entry), st) == Ok(State(st.env[keys := LKeys(ks)], st.out))
  {
    hide ExecItems, ExecKeys, EvalTest, ScalarTokens, Sort, Exec, Eval;
    var declared := State(st.env[keys := LKeys([])], st.out);
    EvalKept(e, st.env, declared.env);
    var met := State(declared.env[keys := LKeys([] + order(entries.Keys))], st.out);
    CollectRuns(prog, order, fuel, e, keys, entry, declared, entries);
    DeclRuns(prog, order, fuel, keys, st);
    SortRuns(prog, order, fuel, keys, met, [] + order(entries.Keys));
    Step(prog, order, fuel, DeclKeys(keys), Then(CollectKeys(keys, entry, e), SortKeys(keys)), st, declared);
    Step(prog, order, fuel, CollectKeys(keys, entry, e), SortKeys(keys), declared, met);
    assert met.env[keys := LKeys(ks)] == st.env[keys := LKeys(ks)];
  }

  lemma {:induction false} DeclRuns(prog: Program, order: Order, fuel: nat, keys: Name, st: State)
    requires keys !in st.env
    ensures Exec(prog, order, fuel, DeclKeys(keys), st) == Ok(State(st.env[keys := LKeys([])], st.out))
  {
  }

  lemma {:induction false} SortRuns(prog: Program, order: Order, fuel: nat, keys: Name, st: State, ks: seq<string>)
    requires keys in st.env && st.env[keys] == LKeys(ks)
    ensures Exec(prog, order, fuel, SortKeys(keys), st) == Ok(State(st.env[keys := LKeys(Sort(ks))], st.out))
  {
    hide Sort;
  }

  lemma {:induction false} CollectRuns(prog: Program, order: Order, fuel: nat, e: Expr, keys: Name, entry: Name,
                                       st: State,
                    entries: map<string, Value>)
    requires Eval(e, st.env) == Some(VDict(entries))
    requires keys in st.env && st.env[keys] == LKeys([]) && entry !in st.env
    ensures Exec(prog, order, fuel, CollectKeys(keys, entry, e), st)
      == Ok(State(st.env[keys := LKeys([] + order(entries.Keys))], st.out))
  {
    hide ExecItems, ExecKeys, Sort;
    assert [] + order(entries.Keys) == order(entries.Keys);
    if order(entries.Keys) == [] { assert st.env[keys := LKeys([])] == st.env; }
  }

  // --- structs ----------------------------------------------------------------------------

  lemma {:induction false} StructText(p: Codecs, n: string, v: Value, out: seq<Token>)
    requires n in p && v.VStruct?
    ensures |Print(p, EStruct(n), v)| == |PrintFields(p, p[n].members, v, true)| + 2
    ensures out + [LBrace] + PrintFields(p, p[n].members, v, true) + [RBrace] == out + Print(p, EStruct(n), v)
  {
    hide PrintFields;
  }

  lemma {:induction false} StructPending(p: Codecs, order: Order, fuel: nat, n: string, e: Expr, k: nat, st: State,
                                         v: Value)
    requires Pending(p, order, fuel, EStruct(n), e, k, st, v)
    ensures n in p && p[n].name == n && v.VStruct?
    ensures fuel > 0 && |PrintFields(p, p[n].members, v, true)| <= fuel - 1
  {
    hide PrintFields, Enumerates;
    StructText(p, n, v, []);
  }

  lemma {:induction false} CallRuns(p: Codecs, order: Order, fuel: nat, name: string, e: Expr, n: nat, st: State,
                                    v: Value)
    requires Pending(p, order, fuel, EStruct(name), e, n, st, v)
    ensures Wrote_(st, Print(p, EStruct(name), v), n, Exec(Encoders(p), order, fuel, Call(EncoderOf(name), e), st))
    decreases v, 2, 1
  {
    hide ExecItems, ExecKeys, HasType, Accepted, Enumerates, Print, PrintFields, EncoderBody, StructsIn, Encoders;
    StructPending(p, order, fuel, name, e, n, st, v);
    EncoderAt(p, name);
    BodyRuns(p, order, fuel - 1, p[name], v, st.out);
  }

  lemma {:induction false} EncoderAt(p: Codecs, n: string)
    requires n in p
    ensures EncoderOf(n) in Encoders(p) && Encoders(p)[EncoderOf(n)] == EncoderBody(p[n])
  {
    hide EncoderBody;
  }

  /** What the run time flag says, when it is still looked at. */
  ghost predicate FlagTrue(ms: seq<Member>, k: Knowledge, first: bool, env: Env)
    requires forall j :: 0 <= j < |ms| ==> ms[j].Field?
  {
    && (k.certain ==> !first && !k.maybe)
    && (!k.certain && !k.maybe ==> first)
    && (!k.certain && NeedsWrote(ms) ==> Wrote in env && env[Wrote] == LFlag(!first))
  }

  lemma {:induction false} EncodedPrints(p: Codecs, ms: seq<Member>, v: Value, first: bool)
    ensures PrintFields(p, Encoded(ms), v, first) == PrintFields(p, ms, v, first)
    decreases |ms|
  {
    if ms != [] {
      EncodedPrints(p, ms[1..], v, first);
      EncodedPrints(p, ms[1..], v, false);
      if ms[0].Field? {
        assert Encoded(ms)[1..] == Encoded(ms[1..]);
      }
    }
  }

  /** `empty`'s test asks whether the value is empty. */
  lemma {:induction false} TestAsksEmpty(p: Codecs, e: Encoding, v: Value)
    requires HasType(p, e, v) && !e.EStruct?
    ensures EvalTest(EmptyTest(e), v) == Some(!EmptyValue(v))
  {
  }

  ghost predicate FieldsReady(p: Codecs, order: Order, ms: seq<Member>, v: Value, n: nat, st: State) {
    && Accepted(p) && Enumerates(order) && v.VStruct?
    && EnvBelow(st.env, n) && ValueArg in st.env && st.env[ValueArg] == LValue(v)
    && forall j :: 0 <= j < |ms| ==>
         ms[j].Field? && ms[j].name in v.fields && HasType(p, ms[j].encoding, v.fields[ms[j].name])
         && StructsIn(ms[j].encoding) <= p.Keys && (ms[j].omitempty ==> Absent(ms[j].encoding))
  }

  lemma {:induction false} FieldValueRuns(p: Codecs, order: Order, fuel: nat, ms: seq<Member>, i: nat, v: Value,
                                          n: nat, st: State)
    requires FieldsReady(p, order, ms, v, n, st) && i < |ms| && WrittenIn(ms[i], v)
    requires |Print(p, ms[i].encoding, v.fields[ms[i].name])| <= fuel
    ensures Wrote_(st, Print(p, ms[i].encoding, v.fields[ms[i].name]), n + FieldTemps(ms[i]),
                   Exec(Encoders(p), order, fuel, FieldValue(ms[i], n), st))
    decreases v, 0, 0
  {
    hide Encoders, Exec, Wrote_;
    var m := ms[i];
    var at := Attr(Var(ValueArg), m.name);
    var x := v.fields[m.name];
    assert ExprBelow(Var(ValueArg), n);
    assert ExprBelow(at, n);
    assert Eval(at, st.env) == Some(x);
    assert HasType(p, m.encoding, x) && StructsIn(m.encoding) <= p.Keys;
    if m.omitempty && m.encoding.EOptional? {
      assert x.VSome? && Print(p, m.encoding, x) == Print(p, m.encoding.arg, x.inner);
      EncodeRuns(p, order, fuel, m.encoding.arg, Payload(at), n, st, x.inner);
    } else {
      EncodeRuns(p, order, fuel, m.encoding, at, n, st, x);
    }
  }

  /** Where the static analysis stands before field `i`. */
  ghost predicate Standing(ms: seq<Member>, i: nat, k: Knowledge, first: bool, env: Env)
    requires forall j :: 0 <= j < |ms| ==> ms[j].Field?
  {
    && FlagTrue(ms, k, first, env)
    && (!k.certain && !k.maybe ==> i == 0)
    && (k.maybe ==> 0 < i && |ms| > 0 && ms[0].omitempty)
  }

  /** The comma in front of a field is there exactly when a field came before it. */
  lemma {:induction false} CommaRuns(prog: Program, order: Order, fuel: nat, ms: seq<Member>, i: nat, k: Knowledge,
                                     first: bool, st: State)
    requires i < |ms| && (forall j :: 0 <= j < |ms| ==> ms[j].Field?) && Standing(ms, i, k, first, st.env)
    ensures Exec(prog, order, fuel, CommaFor(k), st) == Ok(st.(out := st.out + CommaUnless(first)))
  {
    if !k.certain && k.maybe {
      assert NeedsWrote(ms);
      CommaIf(prog, order, fuel, Wrote, true, st);
    }
    assert st.out + [] == st.out;
  }

  /** A comma, the key, and the value: what writing one field does. */
  lemma {:induction false} WrittenRuns(p: Codecs, order: Order, fuel: nat, ms: seq<Member>, i: nat, k: Knowledge,
                                       v: Value, n: nat, first: bool, st: State)
    requires FieldsReady(p, order, ms, v, n, st) && i < |ms| && WrittenIn(ms[i], v)
    requires Standing(ms, i, k, first, st.env)
    requires |PrintField(p, ms[i], v)| <= fuel
    ensures Wrote_(st, CommaUnless(first) + PrintField(p, ms[i], v), n + FieldTemps(ms[i]),
                   Exec(Encoders(p), order, fuel, Then(CommaFor(k),
                         Then(Append([Text(ms[i].json), Colon]), FieldValue(ms[i], n))), st))
    decreases v, 1, 0
  {
    hide Encoders;
    var m := ms[i];
    CommaRuns(Encoders(p), order, fuel, ms, i, k, first, st);
    var keyed := State(st.env, st.out + CommaUnless(first) + [Text(m.json), Colon]);
    var prog := Encoders(p);
    Step(prog, order, fuel, CommaFor(k), Then(Append([Text(m.json), Colon]), FieldValue(m, n)), st,
         st.(out := st.out + CommaUnless(first)));
    Step(prog, order, fuel, Append([Text(m.json), Colon]), FieldValue(m, n), st.(out := st.out + CommaUnless(first)),
         keyed);
    FieldValueRuns(p, order, fuel, ms, i, v, n, keyed);
    assert keyed.out + Print(p, m.encoding, v.fields[m.name]) == st.out + (CommaUnless(first) + PrintField(p, m, v));
  }

  ghost function FieldText_(p: Codecs, m: Member, v: Value, first: bool): seq<Token> {
    if WrittenIn(m, v) then CommaUnless(first) + PrintField(p, m, v) else []
  }

  /** The test an `omitempty` field is under, made once. */
  lemma {:induction false} TestRuns(prog: Program, order: Order, fuel: nat, m: Member, last: bool, k: Knowledge,
                                    n: nat, st: State,
                 x: Value)
    requires m.Field? && m.omitempty
    requires Eval(Attr(Var(ValueArg), m.name), st.env) == Some(x)
    requires EvalTest(EmptyTest(m.encoding), x) == Some(!EmptyValue(x))
    ensures Exec(prog, order, fuel, FieldStmt(m, last, k, n), st) ==
      if EmptyValue(x) then Ok(st)
      else Block(Exec(prog, order, fuel, Then(Then(CommaFor(k), Then(Append([Text(m.json), Colon]), FieldValue(m, n))),
                                              if !k.certain && !last then SetFlag(Wrote, true) else Pass), st), st.env)
  {
    TestShape(prog, order, fuel, EmptyTest(m.encoding), Attr(Var(ValueArg), m.name),
              Then(Then(CommaFor(k), Then(Append([Text(m.json), Colon]), FieldValue(m, n))),
                   if !k.certain && !last then SetFlag(Wrote, true) else Pass), st, x, !EmptyValue(x));
  }

  lemma {:induction false} TestShape(prog: Program, order: Order, fuel: nat, kind: Test, of: Expr, body: Stmt,
                                     st: State, x: Value,
                  b: bool)
    requires Eval(of, st.env) == Some(x) && EvalTest(kind, x) == Some(b)
    ensures Exec(prog, order, fuel, IfTest(kind, of, body), st)
      == if b then Block(Exec(prog, order, fuel, body, st), st.env) else Ok(st)
  {
  }

  lemma {:induction false} FieldsStep(prog: Program, order: Order, fuel: nat, ms: seq<Member>, i: nat, k: Knowledge,
                                      n: nat, st: State,
                   next: State)
    requires (forall j :: 0 <= j < |ms| ==> ms[j].Field?) && i < |ms|
    requires Exec(prog, order, fuel, FieldStmt(ms[i], i == |ms| - 1, k, n), st) == Ok(next)
    ensures Exec(prog, order, fuel, Fields(ms, i, k, n), st)
      == Exec(prog, order, fuel, Fields(ms, i + 1, Learn(k, ms[i]), n + FieldTemps(ms[i])), next)
  {
    Step(prog, order, fuel, FieldStmt(ms[i], i == |ms| - 1, k, n),
         Fields(ms, i + 1, Learn(k, ms[i]), n + FieldTemps(ms[i])), st, next);
  }

  lemma {:induction false} FieldRuns(p: Codecs, order: Order, fuel: nat, ms: seq<Member>, i: nat, k: Knowledge,
                                     v: Value, n: nat, first: bool, st: State)
    requires FieldsReady(p, order, ms, v, n, st) && i < |ms| && Standing(ms, i, k, first, st.env)
    requires WrittenIn(ms[i], v) ==> |PrintField(p, ms[i], v)| <= fuel
    ensures var r := Exec(Encoders(p), order, fuel, FieldStmt(ms[i], i == |ms| - 1, k, n), st);
      && r.Ok?
      && r.value.out == st.out + FieldText_(p, ms[i], v, first)
      && FieldsReady(p, order, ms, v, n + FieldTemps(ms[i]), r.value)
      && (i < |ms| - 1 ==> Standing(ms, i + 1, Learn(k, ms[i]), first && !WrittenIn(ms[i], v), r.value.env))
    decreases v, 1, 1
  {
    hide Encoders;
    var m := ms[i];
    if WrittenIn(m, v) {
      WrittenRuns(p, order, fuel, ms, i, k, v, n, first, st);
    }
    if m.omitempty {
      TestAsksEmpty(p, m.encoding, v.fields[m.name]);
      assert Eval(Attr(Var(ValueArg), m.name), st.env) == Some(v.fields[m.name]);
      if WrittenIn(m, v) {
        var written := Then(CommaFor(k), Then(Append([Text(m.json), Colon]), FieldValue(m, n)));
        var note := if !k.certain && i != |ms| - 1 then SetFlag(Wrote, true) else Pass;
        var done := Exec(Encoders(p), order, fuel, written, st).value;
        OmittableRuns(p, order, fuel, ms, i, k, v, n, first, st, done);
        Step(Encoders(p), order, fuel, written, note, st, done);
        TestRuns(Encoders(p), order, fuel, m, i == |ms| - 1, k, n, st, v.fields[m.name]);
      } else {
        assert st.out + [] == st.out;
        TestRuns(Encoders(p), order, fuel, m, i == |ms| - 1, k, n, st, v.fields[m.name]);
      }
    }
  }

  /** The block around a field that may be left out: only the flag comes out of it. */
  lemma {:induction false} OmittableRuns(p: Codecs, order: Order, fuel: nat, ms: seq<Member>, i: nat, k: Knowledge,
                                         v: Value, n: nat,
                      first: bool, st: State, done: State)
    requires FieldsReady(p, order, ms, v, n, st) && i < |ms| && ms[i].omitempty && Standing(ms, i, k, first, st.env)
    requires Kept(st.env, done.env)
    ensures var note := if !k.certain && i != |ms| - 1 then SetFlag(Wrote, true) else Pass;
      var r := Exec(Encoders(p), order, fuel, note, done);
      && r.Ok?
      && Leave(r.value, st.env).out == done.out
      && FieldsReady(p, order, ms, v, n, Leave(r.value, st.env))
      && (i < |ms| - 1 ==> Standing(ms, i + 1, Learn(k, ms[i]), false, Leave(r.value, st.env).env))
  {
    hide PrintFields, Encoders;
    if !k.certain && i != |ms| - 1 {
      assert NeedsWrote(ms);
      var flagged := State(done.env[Wrote := LFlag(true)], done.out);
      assert Leave(flagged, st.env).env == st.env[Wrote := LFlag(true)];
    } else {
      LeaveKept(done, st.env);
    }
  }

  lemma {:induction false} FieldsAdd(p: Codecs, ms: seq<Member>, i: nat, v: Value, first: bool, out: seq<Token>)
    requires i < |ms|
    ensures PrintFields(p, ms[i..], v, first)
      == FieldText_(p, ms[i], v, first) + PrintFields(p, ms[i + 1..], v, first && !WrittenIn(ms[i], v))
    ensures out + FieldText_(p, ms[i], v, first) + PrintFields(p, ms[i + 1..], v, first && !WrittenIn(ms[i], v))
      == out + PrintFields(p, ms[i..], v, first)
  {
    hide Print, PrintField, Written;
    assert ms[i..][0] == ms[i] && ms[i..][1..] == ms[i + 1..];
  }

  lemma {:induction false} FieldsRun(p: Codecs, order: Order, fuel: nat, ms: seq<Member>, i: nat, k: Knowledge,
                                     v: Value, n: nat, first: bool, st: State)
    requires FieldsReady(p, order, ms, v, n, st) && i <= |ms| && (i < |ms| ==> Standing(ms, i, k, first, st.env))
    requires |PrintFields(p, ms[i..], v, first)| <= fuel
    ensures var r := Exec(Encoders(p), order, fuel, Fields(ms, i, k, n), st);
      r.Ok? && r.value.out == st.out + PrintFields(p, ms[i..], v, first)
    decreases v, 1, 2 + |ms| - i
  {
    hide Encoders, Print, HasType, ScalarTokens, Standing, EmptyTest, Accepted, FieldValue, EnvBelow;
    if i == |ms| {
      assert st.out + [] == st.out;
    } else {
      var m := ms[i];
      var still := first && !WrittenIn(m, v);
      FieldsAdd(p, ms, i, v, first, st.out);
      FieldRuns(p, order, fuel, ms, i, k, v, n, first, st);
      var next := Exec(Encoders(p), order, fuel, FieldStmt(m, i == |ms| - 1, k, n), st).value;
      FieldsRun(p, order, fuel, ms, i + 1, Learn(k, m), v, n + FieldTemps(m), still, next);
      FieldsStep(Encoders(p), order, fuel, ms, i, k, n, st, next);
    }
  }

  lemma {:induction false} EncodedReady(p: Codecs, order: Order, c: Codec, v: Value, st: State)
    requires Accepted(p) && Enumerates(order) && c.name in p && p[c.name] == c && HasType(p, EStruct(c.name), v)
    requires EnvBelow(st.env, 0) && ValueArg in st.env && st.env[ValueArg] == LValue(v)
    ensures FieldsReady(p, order, Encoded(c.members), v, 0, st)
  {
    var ms := Encoded(c.members);
    forall j | 0 <= j < |ms|
      ensures ms[j].Field? && ms[j].name in v.fields && HasType(p, ms[j].encoding, v.fields[ms[j].name])
        && StructsIn(ms[j].encoding) <= p.Keys && (ms[j].omitempty ==> Absent(ms[j].encoding))
    {
      var h :| 0 <= h < |c.members| && c.members[h] == ms[j];
    }
  }

  /** `_encode_<struct>` puts one whole object on the end of the output. */
  lemma {:induction false} BodyRuns(p: Codecs, order: Order, fuel: nat, c: Codec, v: Value, out: seq<Token>)
    requires Accepted(p) && Enumerates(order) && c.name in p && p[c.name] == c && HasType(p, EStruct(c.name), v)
    requires |PrintFields(p, c.members, v, true)| <= fuel
    ensures var r := Exec(Encoders(p), order, fuel, EncoderBody(c), State(map[ValueArg := LValue(v)], out));
      r.Ok? && r.value.out == out + Print(p, EStruct(c.name), v)
    decreases v, 2, 0
  {
    hide Encoders, Sort, SetToSeq, SortedKeys, Exec, ExecItems, ExecKeys, PrintEntries, Temps, Print;
    var ms := Encoded(c.members);
    EncodedPrints(p, c.members, v, true);
    var started := State(map[ValueArg := LValue(v)], out + [LBrace]);
    var begun := if NeedsWrote(ms) then State(started.env[Wrote := LFlag(false)], started.out) else started;
    EncodedReady(p, order, c, v, begun);
    assert ms[0..] == ms;
    FieldsRun(p, order, fuel, ms, 0, Knowledge(false, false), v, 0, true, begun);
    var filled := Exec(Encoders(p), order, fuel, Fields(ms, 0, Knowledge(false, false), 0), begun).value;
    BodySteps(Encoders(p), order, fuel, c, map[ValueArg := LValue(v)], out, filled);
    StructText(p, c.name, v, out);
  }

  lemma {:induction false} BodySteps(prog: Program, order: Order, fuel: nat, c: Codec, env: Env, out: seq<Token>,
                                     filled: State)
    requires Wrote !in env
    requires var ms := Encoded(c.members);
      Exec(prog, order, fuel, Fields(ms, 0, Knowledge(false, false), 0),
           State(if NeedsWrote(ms) then env[Wrote := LFlag(false)] else env, out + [LBrace])) == Ok(filled)
    ensures Exec(prog, order, fuel, EncoderBody(c), State(env, out)) == Ok(filled.(out := filled.out + [RBrace]))
  {
    var ms := Encoded(c.members);
    var fields := Fields(ms, 0, Knowledge(false, false), 0);
    var declare := if NeedsWrote(ms) then DeclFlag(Wrote, false) else Pass;
    var begun := State(if NeedsWrote(ms) then env[Wrote := LFlag(false)] else env, out + [LBrace]);
    Step(prog, order, fuel, Append([LBrace]), Then(declare, Then(fields, Append([RBrace]))), State(env, out),
         State(env, out + [LBrace]));
    Step(prog, order, fuel, declare, Then(fields, Append([RBrace])), State(env, out + [LBrace]), begun);
    Step(prog, order, fuel, fields, Append([RBrace]), begun, filled);
  }

  /** `marshal_json(value)`: a call on an empty buffer. */
  function Marshal(p: Codecs, order: Order, fuel: nat, n: string, v: Value): Outcome<seq<Token>> {
    match Exec(Encoders(p), order, fuel, Call(EncoderOf(n), Var(ValueArg)), State(map[ValueArg := LValue(v)], []))
    case Failed(err) => Failed(err)
    case Ok(st) => Ok(st.out)
  }

  /**
   Every emitted encoder, run on every value of its struct, ends and writes
   exactly the printed value.  Two iteration orders give the same document.
   */
  lemma {:induction false} MarshalPrints(p: Codecs, order: Order, fuel: nat, n: string, v: Value)
    requires Accepted(p) && Enumerates(order) && n in p && HasType(p, EStruct(n), v)
    requires |Print(p, EStruct(n), v)| <= fuel
    ensures Marshal(p, order, fuel, n, v) == Ok(Print(p, EStruct(n), v))
  {
    var st := State(map[ValueArg := LValue(v)], []);
    CallRuns(p, order, fuel, n, Var(ValueArg), 0, st, v);
    assert [] + Print(p, EStruct(n), v) == Print(p, EStruct(n), v);
  }
}
