/**
 The lines of an encoder, run as they stand: a reader that knows blocks by
 their indentation and nothing of the statements they were written from.  An
 `else` belongs to the `if` above it, and a block with nothing in it is not a
 program.
 */
module EncoderText {
  import opened Common
  import opened JsonModel
  import opened EmitBody
  import opened EmitEncoder
  import opened EncoderLines

  /** The functions of a file, each with the block under its `def`. */
  type Source = map<Func, seq<Node<Head>>>

  /** A line that calls nothing and opens no block. */
  predicate Simple(s: Stmt) {
    s.Append? || s.AppendScalar? || s.AppendText? || s.DeclFlag? || s.SetFlag? || s.DeclKeys? || s.SortKeys?
  }

  predicate HasElse(nodes: seq<Node<Head>>) {
    |nodes| > 1 && nodes[1].head.Otherwise?
  }

  function Run(src: Source, order: Order, fuel: nat, nodes: seq<Node<Head>>, st: State): Outcome<State>
    decreases fuel, nodes, 1
  {
    if nodes == [] then Ok(st)
    else
      match RunFirst(src, order, fuel, nodes, st)
      case Failed(err) => Failed(err)
      case Ok(mid) =>
        if nodes[0].head.IfSet? && HasElse(nodes) then Run(src, order, fuel, nodes[2..], mid)
        else Run(src, order, fuel, nodes[1..], mid)
  }

  /** The first line, with its block, and with its `else` where it has one. */
  function RunFirst(src: Source, order: Order, fuel: nat, nodes: seq<Node<Head>>, st: State): Outcome<State>
    requires nodes != []
    decreases fuel, nodes, 0
  {
    var body := nodes[0].body;
    if Opens(nodes[0].head) != (body != []) then Failed(IllFormed)
    else
      match nodes[0].head
      case Plain(Call(func, arg)) =>
        (match Eval(arg, st.env)
         case None => Failed(IllFormed)
         case Some(v) =>
           if func !in src then Failed(IllFormed)
           else if fuel == 0 then Failed(OutOfFuel)
           else
             match Run(src, order, fuel - 1, src[func], State(map[ValueArg := LValue(v)], st.out))
             case Failed(err) => Failed(err)
             case Ok(done) => Ok(st.(out := done.out)))
      case Plain(s) => if Simple(s) then Exec(map[], order, 0, s, st) else Failed(IllFormed)
      case IfSet(test) =>
        (match Eval(test, st.env)
         case Some(VSome(_)) => Block(Run(src, order, fuel, body, st), st.env)
         case Some(VNone) =>
           if !HasElse(nodes) then Ok(st)
           else if nodes[1].body == [] then Failed(IllFormed)
           else Block(Run(src, order, fuel, nodes[1].body, st), st.env)
         case _ => Failed(IllFormed))
      case IfWorth(kind, of) =>
        (match Eval(of, st.env)
         case None => Failed(IllFormed)
         case Some(v) =>
           match EvalTest(kind, v)
           case None => Failed(IllFormed)
           case Some(b) => if b then Block(Run(src, order, fuel, body, st), st.env) else Ok(st))
      case IfUp(x, want) =>
        if x in st.env && st.env[x].LFlag? then
          if st.env[x].up == want then Block(Run(src, order, fuel, body, st), st.env) else Ok(st)
        else Failed(IllFormed)
      case ForItem(item, of) =>
        (match Eval(of, st.env)
         case Some(VList(items)) =>
           if item in st.env then Failed(IllFormed) else RunItems(src, order, fuel, item, items, body, st)
         case _ => Failed(IllFormed))
      case ForEntry(entry, of) =>
        (match Eval(of, st.env)
         case Some(VDict(entries)) =>
           if entry in st.env then Failed(IllFormed) else RunKeys(src, order, fuel, entry, order(entries.Keys), body,
                 st)
         case _ => Failed(IllFormed))
      case KeepKey(keys, entry) =>
        if keys in st.env && st.env[keys].LKeys? && entry in st.env && st.env[entry].LText? then
          Ok(st.(env := st.env[keys := LKeys(st.env[keys].ks + [st.env[entry].s])]))
        else Failed(IllFormed)
      case ForKey(key, keys) =>
        if keys in st.env && st.env[keys].LKeys? && key !in st.env then
          RunKeys(src, order, fuel, key, st.env[keys].ks, body, st)
        else Failed(IllFormed)
      case Otherwise => Failed(IllFormed)
      case Def(_) => Failed(IllFormed)
  }

  function RunItems(src: Source, order: Order, fuel: nat, item: Name, items: seq<Value>, body: seq<Node<Head>>,
                    st: State): Outcome<State>
    decreases fuel, body, 2 + |items|
  {
    if items == [] then Ok(st)
    else
      match Block(Run(src, order, fuel, body, st.(env := st.env[item := LValue(items[0])])), st.env)
      case Failed(err) => Failed(err)
      case Ok(next) => RunItems(src, order, fuel, item, items[1..], body, next)
  }

  function RunKeys(src: Source, order: Order, fuel: nat, key: Name, ks: seq<string>, body: seq<Node<Head>>,
                   st: State): Outcome<State>
    decreases fuel, body, 2 + |ks|
  {
    if ks == [] then Ok(st)
    else
      match Block(Run(src, order, fuel, body, st.(env := st.env[key := LText(ks[0])])), st.env)
      case Failed(err) => Failed(err)
      case Ok(next) => RunKeys(src, order, fuel, key, ks[1..], body, next)
  }

  // --- lines after lines ----------------------------------------------------------------

  ghost function AndThen(src: Source, order: Order, fuel: nat, r: Outcome<State>, b: seq<Node<Head>>): Outcome<State> {
    match r
    case Failed(err) => Failed(err)
    case Ok(mid) => Run(src, order, fuel, b, mid)
  }

  /** The first line and its `else` do not depend on what comes further down. */
  lemma {:induction false} FirstAlone(src: Source, order: Order, fuel: nat, a: seq<Node<Head>>, b: seq<Node<Head>>,
                                      st: State)
    requires a != [] && (b != [] ==> !b[0].head.Otherwise?)
    ensures HasElse(a + b) == HasElse(a)
    ensures RunFirst(src, order, fuel, a + b, st) == RunFirst(src, order, fuel, a, st)
  {
    hide Run, RunItems, RunKeys, Exec, Eval;
    assert (a + b)[0] == a[0];
    if |a| > 1 { assert (a + b)[1] == a[1]; }
  }

  lemma {:induction false} RunConcat(src: Source, order: Order, fuel: nat, a: seq<Node<Head>>, b: seq<Node<Head>>,
                                     st: State)
    requires b != [] ==> !b[0].head.Otherwise?
    ensures Run(src, order, fuel, a + b, st) == AndThen(src, order, fuel, Run(src, order, fuel, a, st), b)
  {
    hide RunFirst;
    if a == [] {
      assert a + b == b;
    } else {
      FirstAlone(src, order, fuel, a, b, st);
      var r := RunFirst(src, order, fuel, a, st);
      if r.Ok? {
        var k := if a[0].head.IfSet? && HasElse(a) then 2 else 1;
        assert (a + b)[k..] == a[k..] + b;
        RunConcat(src, order, fuel, a[k..], b, r.value);
      }
    }
  }

  lemma {:induction false} RunNone(src: Source, order: Order, fuel: nat, st: State)
    ensures Run(src, order, fuel, [], st) == Ok(st)
  {
  }

  lemma {:induction false} RunOne(src: Source, order: Order, fuel: nat, node: Node<Head>, st: State)
    ensures Run(src, order, fuel, [node], st) == RunFirst(src, order, fuel, [node], st)
  {
    hide RunFirst;
    assert [node][1..] == [];
  }

  lemma {:induction false} NoElseFirst(s: Stmt)
    ensures Outline(s) != [] ==> !Outline(s)[0].head.Otherwise?
  {
    if s.Then? {
      NoElseFirst(s.a);
      NoElseFirst(s.b);
      if Outline(s.a) != [] { assert Outline(s)[0] == Outline(s.a)[0]; }
    }
  }

  // --- the lines of a statement do what the statement does ---------------------------------

  /** The file is the one the program was laid out as, and no block in it is empty. */
  ghost predicate LaidOut(prog: Program, src: Source) {
    && prog.Keys == src.Keys
    && forall f :: f in prog ==> src[f] == Outline(prog[f]) && Solid(src[f])
  }

  lemma {:induction false} SimpleAlike(prog: Program, order: Order, fuel: nat, s: Stmt, st: State)
    requires Simple(s)
    ensures Exec(map[], order, 0, s, st) == Exec(prog, order, fuel, s, st)
  {
  }

  lemma {:induction false} SolidParts(a: seq<Node<Head>>, b: seq<Node<Head>>)
    requires Solid(a + b)
    ensures Solid(a) && Solid(b)
  {
    forall i | 0 <= i < |a| ensures (Opens(a[i].head) <==> a[i].body != []) && Solid(a[i].body) {
      assert a[i] == (a + b)[i];
    }
    forall i | 0 <= i < |b| ensures (Opens(b[i].head) <==> b[i].body != []) && Solid(b[i].body) {
      assert b[i] == (a + b)[|a| + i];
    }
  }

  lemma {:induction false} SolidOne(node: Node<Head>)
    requires Solid([node])
    ensures (Opens(node.head) <==> node.body != []) && Solid(node.body)
  {
    assert [node][0] == node;
  }

  lemma {:induction false} ThenRuns(prog: Program, src: Source, order: Order, fuel: nat, a: Stmt, b: Stmt, st: State)
    requires LaidOut(prog, src) && Solid(Outline(Then(a, b)))
    ensures Run(src, order, fuel, Outline(Then(a, b)), st) == Exec(prog, order, fuel, Then(a, b), st)
    decreases fuel, Then(a, b), 0
  {
    hide Run, LaidOut, Solid;
    SolidParts(Outline(a), Outline(b));
    NoElseFirst(b);
    RunConcat(src, order, fuel, Outline(a), Outline(b), st);
    OutlineRuns(prog, src, order, fuel, a, st);
    var r := Exec(prog, order, fuel, a, st);
    if r.Ok? { OutlineRuns(prog, src, order, fuel, b, r.value); }
  }

  lemma {:induction false} CallLine(prog: Program, src: Source, order: Order, fuel: nat, f: Func, arg: Expr, st: State)
    requires LaidOut(prog, src)
    ensures Run(src, order, fuel, Outline(Call(f, arg)), st) == Exec(prog, order, fuel, Call(f, arg), st)
    decreases fuel, Call(f, arg), 0
  {
    hide Run;
    RunOne(src, order, fuel, Node(Plain(Call(f, arg)), []), st);
    if Eval(arg, st.env).Some? && f in prog && fuel > 0 {
      OutlineRuns(prog, src, order, fuel - 1, prog[f], State(map[ValueArg := LValue(Eval(arg, st.env).value)], st.out));
    }
  }

  lemma {:induction false} IfHoldsLines(prog: Program, src: Source, order: Order, fuel: nat, test: Expr, yes: Stmt,
                                        no: Stmt, st: State)
    requires LaidOut(prog, src) && Solid(Outline(IfHolds(test, yes, no)))
    ensures Run(src, order, fuel, Outline(IfHolds(test, yes, no)), st)
      == Exec(prog, order, fuel, IfHolds(test, yes, no), st)
    decreases fuel, IfHolds(test, yes, no), 0
  {
    var a, b := Node(IfSet(test), Outline(yes)), Node(Otherwise, Outline(no));
    assert Outline(IfHolds(test, yes, no)) == [a] + [b];
    SolidParts([a], [b]);
    SolidOne(a);
    SolidOne(b);
    OutlineRuns(prog, src, order, fuel, yes, st);
    OutlineRuns(prog, src, order, fuel, no, st);
    IfElse(src, order, fuel, a, b, st);
  }

  lemma {:induction false} IfElse(src: Source, order: Order, fuel: nat, a: Node<Head>, b: Node<Head>, st: State)
    requires a.head.IfSet? && b.head.Otherwise?
    ensures Run(src, order, fuel, [a, b], st) == RunFirst(src, order, fuel, [a, b], st)
  {
    hide RunFirst;
    assert [a, b][2..] == [];
  }

  lemma {:induction false} ItemsAlike(prog: Program, src: Source, order: Order, fuel: nat, item: Name,
                                      items: seq<Value>, body: Stmt, st: State)
    requires LaidOut(prog, src) && Solid(Outline(body))
    ensures RunItems(src, order, fuel, item, items, Outline(body), st)
      == ExecItems(prog, order, fuel, item, items, body, st)
    decreases fuel, body, 2 + |items|
  {
    hide Run, Exec, LaidOut, Solid;
    if items != [] {
      OutlineRuns(prog, src, order, fuel, body, st.(env := st.env[item := LValue(items[0])]));
      var r := Block(Exec(prog, order, fuel, body, st.(env := st.env[item := LValue(items[0])])), st.env);
      if r.Ok? { ItemsAlike(prog, src, order, fuel, item, items[1..], body, r.value); }
    }
  }

  lemma {:induction false} KeysAlike(prog: Program, src: Source, order: Order, fuel: nat, key: Name, ks: seq<string>,
                                     body: Stmt, st: State)
    requires LaidOut(prog, src) && Solid(Outline(body))
    ensures RunKeys(src, order, fuel, key, ks, Outline(body), st) == ExecKeys(prog, order, fuel, key, ks, body, st)
    decreases fuel, body, 2 + |ks|
  {
    hide Run, Exec, LaidOut, Solid;
    if ks != [] {
      OutlineRuns(prog, src, order, fuel, body, st.(env := st.env[key := LText(ks[0])]));
      var r := Block(Exec(prog, order, fuel, body, st.(env := st.env[key := LText(ks[0])])), st.env);
      if r.Ok? { KeysAlike(prog, src, order, fuel, key, ks[1..], body, r.value); }
    }
  }

  /** One key kept, and its loop variable gone again. */
  lemma {:induction false} KeepOne(src: Source, order: Order, fuel: nat, x: Name, entry: Name, k: string, st: State)
    requires entry !in st.env
    ensures var r := Run(src, order, fuel, [Node(KeepKey(x, entry), [])], st.(env := st.env[entry := LText(k)]));
      Block(r, st.env) ==
        if x in st.env && st.env[x].LKeys? then Ok(State(st.env[x := LKeys(st.env[x].ks + [k])], st.out))
        else Failed(IllFormed)
  {
    var inner := st.(env := st.env[entry := LText(k)]);
    RunOne(src, order, fuel, Node(KeepKey(x, entry), []), inner);
    if x in st.env && st.env[x].LKeys? {
      var kept := inner.env[x := LKeys(st.env[x].ks + [k])];
      assert (map y | y in st.env && y in kept :: kept[y]) == st.env[x := LKeys(st.env[x].ks + [k])];
    }
  }

  /** The loop that gathers a dictionary's keys is what `CollectKeys` says at once. */
  lemma {:induction false} KeepLoop(src: Source, order: Order, fuel: nat, x: Name, entry: Name, ks: seq<string>,
                                    st: State)
    requires entry !in st.env
    ensures RunKeys(src, order, fuel, entry, ks, [Node(KeepKey(x, entry), [])], st) ==
      if ks == [] then Ok(st)
      else if x in st.env && st.env[x].LKeys? then Ok(State(st.env[x := LKeys(st.env[x].ks + ks)], st.out))
      else Failed(IllFormed)
  {
    hide Run;
    if ks != [] {
      KeepOne(src, order, fuel, x, entry, ks[0], st);
      if x in st.env && st.env[x].LKeys? {
        var now := st.env[x].ks + [ks[0]];
        var next := State(st.env[x := LKeys(now)], st.out);
        KeepLoop(src, order, fuel, x, entry, ks[1..], next);
        assert now + ks[1..] == st.env[x].ks + ks;
        assert next.env[x := LKeys(st.env[x].ks + ks)] == st.env[x := LKeys(st.env[x].ks + ks)];
        if ks[1..] == [] { assert now == st.env[x].ks + ks; }
      }
    }
  }

  lemma {:induction false} CollectLines(prog: Program, src: Source, order: Order, fuel: nat, x: Name, entry: Name,
                                        of: Expr, st: State)
    ensures Run(src, order, fuel, Outline(CollectKeys(x, entry, of)), st)
      == Exec(prog, order, fuel, CollectKeys(x, entry, of), st)
  {
    hide Run, RunKeys;
    var node := Node(ForEntry(entry, of), [Node(KeepKey(x, entry), [])]);
    RunOne(src, order, fuel, node, st);
    if Eval(of, st.env).Some? && Eval(of, st.env).value.VDict? && entry !in st.env {
      KeepLoop(src, order, fuel, x, entry, order(Eval(of, st.env).value.entries.Keys), st);
    }
  }

  /** Reading the lines and running them is running the statement they were laid out from. */
  lemma {:induction false} OutlineRuns(prog: Program, src: Source, order: Order, fuel: nat, s: Stmt, st: State)
    requires LaidOut(prog, src) && Solid(Outline(s))
    ensures Run(src, order, fuel, Outline(s), st) == Exec(prog, order, fuel, s, st)
    decreases fuel, s, 1
  {
    hide Run;
    match s
    case Pass => assert Run(src, order, fuel, [], st) == Ok(st) by { RunNone(src, order, fuel, st); }
    case Then(a, b) => ThenRuns(prog, src, order, fuel, a, b, st);
    case Call(f, arg) => CallLine(prog, src, order, fuel, f, arg, st);
    case IfHolds(test, yes, no) => IfHoldsLines(prog, src, order, fuel, test, yes, no, st);
    case IfTest(kind, of, body) =>
      SolidOne(Node(IfWorth(kind, of), Outline(body)));
      RunOne(src, order, fuel, Node(IfWorth(kind, of), Outline(body)), st);
      OutlineRuns(prog, src, order, fuel, body, st);
    case IfFlag(x, want, body) =>
      SolidOne(Node(IfUp(x, want), Outline(body)));
      RunOne(src, order, fuel, Node(IfUp(x, want), Outline(body)), st);
      OutlineRuns(prog, src, order, fuel, body, st);
    case ForItems(item, of, body) =>
      SolidOne(Node(ForItem(item, of), Outline(body)));
      RunOne(src, order, fuel, Node(ForItem(item, of), Outline(body)), st);
      if Eval(of, st.env).Some? && Eval(of, st.env).value.VList? {
        ItemsAlike(prog, src, order, fuel, item, Eval(of, st.env).value.items, body, st);
      }
    case ForKeys(key, keys, body) =>
      SolidOne(Node(ForKey(key, keys), Outline(body)));
      RunOne(src, order, fuel, Node(ForKey(key, keys), Outline(body)), st);
      if keys in st.env && st.env[keys].LKeys? { KeysAlike(prog, src, order, fuel, key, st.env[keys].ks, body, st); }
    case CollectKeys(x, entry, of) => CollectLines(prog, src, order, fuel, x, entry, of, st);
    case _ =>
      RunOne(src, order, fuel, Node(Plain(s), []), st);
      SimpleAlike(prog, order, fuel, s, st);
  }
}
