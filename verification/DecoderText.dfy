/**
 The lines of a decoder, run as they stand: blocks are known by their
 indentation, an `elif` or an `else` belongs to the `if` above it, and a block
 with nothing in it is not a program.
 */
module DecoderText {
  import opened Common
  import opened JsonModel
  import opened JsonText
  import opened CodecNames
  import opened EmitBody
  import opened EmitDecoder
  import opened DecoderLines

  /** A function of the file: the struct its first line says it gives, and the block under it. */
  datatype Written = Written(gives: string, body: seq<Node<Head>>)

  type Source = map<string, Written>

  /** A line that reads no struct and opens no block. */
  predicate Simple(s: Stmt) {
    !(s.Pass? || s.Then? || s.UnlessAccept? || s.IfAccept? || s.UnlessNull? || s.Forever? || s.UnlessSet? || s.IfKey?
      || s.DeclareRead? || s.AssignRead?)
  }

  predicate Follows(h: Head) { h.ElifKeyIs? || h.Otherwise? }

  /** How many nodes from the front go on with an `if` above them. */
  function Following(nodes: seq<Node<Head>>): (n: nat)
    ensures n <= |nodes|
  {
    if nodes == [] || !Follows(nodes[0].head) then 0 else 1 + Following(nodes[1..])
  }

  function Run(src: Source, strict: bool, fuel: nat, nodes: seq<Node<Head>>, st: State): Flow
    decreases fuel, 1, nodes, 2
  {
    if nodes == [] then Normal(st)
    else
      match RunFirst(src, strict, fuel, nodes, st)
      case Normal(mid) =>
        Run(src, strict, fuel, nodes[1 + (if nodes[0].head.IfKeyIs? then Following(nodes[1..]) else 0)..], mid)
      case other => other
  }

  /** One read, with the lines of the function it calls. */
  function ReadLines(src: Source, strict: bool, fuel: nat, ty: Encoding, st: State): Outcome<(Value, seq<Token>)>
    decreases fuel, 0
  {
    match ty
    case ERaw => ReadRaw(st.toks, st.depth)
    case EStruct(n) =>
      if Snake(n) !in src || src[Snake(n)].gives != n then Failed(NoDecoder(n))
      else if fuel == 0 then Failed(OutOfFuel)
      else Returned(ty, Run(src, strict, fuel - 1, src[Snake(n)].body, State(map[], st.toks, st.depth)))
    case _ => if Composite(ty) then Failed(IllFormed) else ReadScalar(ty, st.toks)
  }

  /** The first line with its block, or the whole of an `if` with what follows it. */
  function RunFirst(src: Source, strict: bool, fuel: nat, nodes: seq<Node<Head>>, st: State): Flow
    requires nodes != []
    decreases fuel, 1, nodes, 1
  {
    var body := nodes[0].body;
    if Opens(nodes[0].head) != (body != []) then Raised(IllFormed)
    else
      match nodes[0].head
      case Plain(DeclareRead(x, ty)) =>
        if x in st.env then Raised(IllFormed)
        else
          (match ReadLines(src, strict, fuel, ty, st)
           case Failed(err) => Raised(err)
           case Ok(vt) => Normal(State(st.env[x := LVar(ty, vt.0)], vt.1, st.depth)))
      case Plain(AssignRead(x, ty)) =>
        (match ReadLines(src, strict, fuel, ty, st)
         case Failed(err) => Raised(err)
         case Ok(vt) => Assign(st.(toks := vt.1), x, ty, vt.0))
      case Plain(s) => if Simple(s) then Exec(map[], strict, 0, s, st) else Raised(IllFormed)
      case UnlessTaken(t) =>
        if StartsWith(st.toks, t) then Normal(st.(toks := st.toks[1..]))
        else Block(Run(src, strict, fuel, body, st), st.env)
      case IfTaken(t) =>
        if StartsWith(st.toks, t) then Block(Run(src, strict, fuel, body, st.(toks := st.toks[1..])), st.env)
        else Normal(st)
      case UnlessNullTaken =>
        if StartsWith(st.toks, NullWord) then Normal(st.(toks := st.toks[1..]))
        else Block(Run(src, strict, fuel, body, st), st.env)
      case WhileTrue =>
        if fuel == 0 then Raised(OutOfFuel)
        else
          (match Block(Run(src, strict, fuel - 1, body, st), st.env)
           case Breaking(next) => Normal(next)
           case Normal(next) => RunFirst(src, strict, fuel - 1, nodes, next)
           case Continuing(next) => RunFirst(src, strict, fuel - 1, nodes, next)
           case Raised(err) => Raised(err))
      case UnlessHeld(x) =>
        if x in st.env && st.env[x].LVar? && (st.env[x].v.VNone? || st.env[x].v.VSome?) then
          if st.env[x].v.VSome? then Normal(st) else Block(Run(src, strict, fuel, body, st), st.env)
        else Raised(IllFormed)
      case IfKeyIs(key, json) => RunChain(src, strict, fuel, nodes, key, json, st)
      case ElifKeyIs(_, _) => Raised(IllFormed)
      case Otherwise => Raised(IllFormed)
      case Opening(_, _) => Raised(IllFormed)
  }

  /** An `if` or an `elif` over the key, and what comes after it where the key is another. */
  function RunChain(src: Source, strict: bool, fuel: nat, nodes: seq<Node<Head>>, key: Name, json: string,
                    st: State): Flow
    requires nodes != []
    decreases fuel, 1, nodes, 0
  {
    if nodes[0].body == [] || key !in st.env || !st.env[key].LKey? then Raised(IllFormed)
    else if st.env[key].s == json then Block(Run(src, strict, fuel, nodes[0].body, st), st.env)
    else if |nodes| == 1 then Normal(st)
    else
      match nodes[1].head
      case ElifKeyIs(key2, json2) => RunChain(src, strict, fuel, nodes[1..], key2, json2, st)
      case Otherwise =>
        if nodes[1].body == [] then Raised(IllFormed) else Block(Run(src, strict, fuel, nodes[1].body, st), st.env)
      case _ => Normal(st)
  }

  // --- lines after lines ----------------------------------------------------------------

  ghost function AndThen(src: Source, strict: bool, fuel: nat, r: Flow, b: seq<Node<Head>>): Flow {
    match r
    case Normal(mid) => Run(src, strict, fuel, b, mid)
    case other => other
  }

  lemma {:induction false} FollowingAlone(a: seq<Node<Head>>, b: seq<Node<Head>>)
    requires b != [] ==> !Follows(b[0].head)
    ensures Following(a + b) == Following(a)
  {
    if a == [] {
      assert a + b == b;
    } else {
      assert (a + b)[1..] == a[1..] + b;
      FollowingAlone(a[1..], b);
    }
  }

  /** What follows a branch that is not taken. */
  ghost function Onwards(src: Source, strict: bool, fuel: nat, nodes: seq<Node<Head>>, st: State): Flow {
    if nodes == [] then Normal(st)
    else
      match nodes[0].head
      case ElifKeyIs(key, json) => RunChain(src, strict, fuel, nodes, key, json, st)
      case Otherwise =>
        if nodes[0].body == [] then Raised(IllFormed) else Block(Run(src, strict, fuel, nodes[0].body, st), st.env)
      case _ => Normal(st)
  }

  lemma {:induction false} ChainStep(src: Source, strict: bool, fuel: nat, node: Node<Head>, tail: seq<Node<Head>>,
                                     key: Name,
                  json: string, st: State)
    ensures RunChain(src, strict, fuel, [node] + tail, key, json, st) ==
      if node.body == [] || key !in st.env || !st.env[key].LKey? then Raised(IllFormed)
      else if st.env[key].s == json then Block(Run(src, strict, fuel, node.body, st), st.env)
      else Onwards(src, strict, fuel, tail, st)
  {
    hide Run, RunFirst, Block;
    assert ([node] + tail)[1..] == tail;
  }

  lemma {:induction false} ChainAlone(src: Source, strict: bool, fuel: nat, a: seq<Node<Head>>, b: seq<Node<Head>>,
                                      key: Name, json: string, st: State)
    requires a != [] && (b != [] ==> !Follows(b[0].head))
    ensures RunChain(src, strict, fuel, a + b, key, json, st) == RunChain(src, strict, fuel, a, key, json, st)
    decreases |a|
  {
    hide Run, RunFirst, RunChain, Block;
    var tail := a[1..];
    assert a == [a[0]] + tail && a + b == [a[0]] + (tail + b);
    ChainStep(src, strict, fuel, a[0], tail, key, json, st);
    ChainStep(src, strict, fuel, a[0], tail + b, key, json, st);
    if tail == [] {
      assert tail + b == b;
    } else {
      assert (tail + b)[0] == tail[0];
      if tail[0].head.ElifKeyIs? { ChainAlone(src, strict, fuel, tail, b, tail[0].head.key, tail[0].head.json, st); }
    }
  }

  lemma {:induction false} FirstAlone(src: Source, strict: bool, fuel: nat, a: seq<Node<Head>>, b: seq<Node<Head>>,
                                      st: State)
    requires a != [] && (b != [] ==> !Follows(b[0].head))
    ensures RunFirst(src, strict, fuel, a + b, st) == RunFirst(src, strict, fuel, a, st)
    decreases fuel
  {
    hide Run, ReadLines, RunChain, Exec;
    assert (a + b)[0] == a[0];
    match a[0].head
    case IfKeyIs(key, json) => ChainAlone(src, strict, fuel, a, b, key, json, st);
    case WhileTrue =>
      if fuel > 0 {
        var r := Block(Run(src, strict, fuel - 1, a[0].body, st), st.env);
        if r.Normal? || r.Continuing? { FirstAlone(src, strict, fuel - 1, a, b, r.st); }
      }
    case _ =>
  }

  lemma {:induction false} RunConcat(src: Source, strict: bool, fuel: nat, a: seq<Node<Head>>, b: seq<Node<Head>>,
                                     st: State)
    requires b != [] ==> !Follows(b[0].head)
    ensures Run(src, strict, fuel, a + b, st) == AndThen(src, strict, fuel, Run(src, strict, fuel, a, st), b)
    decreases |a|
  {
    hide RunFirst;
    if a == [] {
      assert a + b == b;
    } else {
      FirstAlone(src, strict, fuel, a, b, st);
      assert (a + b)[1..] == a[1..] + b;
      FollowingAlone(a[1..], b);
      var r := RunFirst(src, strict, fuel, a, st);
      if r.Normal? {
        var k := 1 + (if a[0].head.IfKeyIs? then Following(a[1..]) else 0);
        assert (a + b)[k..] == a[k..] + b;
        RunConcat(src, strict, fuel, a[k..], b, r.st);
      }
    }
  }

  lemma {:induction false} RunNone(src: Source, strict: bool, fuel: nat, st: State)
    ensures Run(src, strict, fuel, [], st) == Normal(st)
  {
  }

  lemma {:induction false} RunOne(src: Source, strict: bool, fuel: nat, node: Node<Head>, st: State)
    ensures Run(src, strict, fuel, [node], st) == RunFirst(src, strict, fuel, [node], st)
  {
    hide RunFirst;
    assert [node][1..] == [];
  }

  lemma {:induction false} NoneFollows(s: Stmt)
    ensures Outline(s) != [] ==> !Follows(Outline(s)[0].head)
  {
    if s.Then? {
      NoneFollows(s.a);
      NoneFollows(s.b);
      if Outline(s.a) != [] { assert Outline(s)[0] == Outline(s.a)[0]; }
    }
  }

  // --- the lines of a statement do what the statement does ---------------------------------

  /** The file is the one the program was laid out as, and no block in it is empty. */
  ghost predicate LaidOut(prog: Program, src: Source) {
    && prog.Keys == src.Keys
    && forall f :: f in prog ==>
         src[f].gives == prog[f].gives && src[f].body == Outline(prog[f].body) && Solid(src[f].body)
  }

  lemma {:induction false} SimpleAlike(prog: Program, strict: bool, fuel: nat, s: Stmt, st: State)
    requires Simple(s)
    ensures Exec(map[], strict, 0, s, st) == Exec(prog, strict, fuel, s, st)
  {
  }

  lemma {:induction false} SolidParts(a: seq<Node<Head>>, b: seq<Node<Head>>)
    requires Solid(a + b)
    ensures Solid(a) && Solid(b)
  {
    forall i | 0 <= i < |a| ensures (Opens(a[i].head) <==> a[i].body != []) && Solid(a[i].body) {
      assert a[i] == (a + b)[i];
    }
    forall i | 0 <= i < |b| ensures (Opens(b[i].head) <==> b[i].body != []) && Solid(b[i].body) {
      assert b[i] == (a + b)[|a| + i];
    }
  }

  lemma {:induction false} SolidOne(node: Node<Head>)
    requires Solid([node])
    ensures (Opens(node.head) <==> node.body != []) && Solid(node.body)
  {
    assert [node][0] == node;
  }

  lemma {:induction false} BlockTwice(r: Flow, env: Env)
    ensures Block(Block(r, env), env) == Block(r, env)
  {
    if !r.Raised? {
      var kept := map x | x in env && x in r.st.env :: r.st.env[x];
      assert (map x | x in env && x in kept :: kept[x]) == kept;
    }
  }

  lemma {:induction false} ReadAlike(prog: Program, src: Source, strict: bool, fuel: nat, ty: Encoding, st: State)
    requires LaidOut(prog, src)
    ensures ReadLines(src, strict, fuel, ty, st) == ReadOnce(prog, strict, fuel, ty, st)
    decreases fuel, 0, Pass, 0
  {
    hide Run, Exec, Solid;
    if ty.EStruct? && HasDecoder(prog, ty.name) && fuel > 0 {
      OutlineRuns(prog, src, strict, fuel - 1, prog[Snake(ty.name)].body, State(map[], st.toks, st.depth));
    }
  }

  lemma {:induction false} ThenRuns(prog: Program, src: Source, strict: bool, fuel: nat, a: Stmt, b: Stmt, st: State)
    requires LaidOut(prog, src) && Solid(Outline(Then(a, b)))
    ensures Run(src, strict, fuel, Outline(Then(a, b)), st) == Exec(prog, strict, fuel, Then(a, b), st)
    decreases fuel, 1, Then(a, b), 0
  {
    hide Run, LaidOut, Solid;
    SolidParts(Outline(a), Outline(b));
    NoneFollows(b);
    RunConcat(src, strict, fuel, Outline(a), Outline(b), st);
    OutlineRuns(prog, src, strict, fuel, a, st);
    var r := Exec(prog, strict, fuel, a, st);
    if r.Normal? { OutlineRuns(prog, src, strict, fuel, b, r.st); }
  }

  lemma {:induction false} WhileStep(src: Source, strict: bool, fuel: nat, body: seq<Node<Head>>, st: State)
    requires fuel > 0 && body != []
    ensures RunFirst(src, strict, fuel, [Node(WhileTrue, body)], st) ==
      match Block(Run(src, strict, fuel - 1, body, st), st.env)
      case Breaking(next) => Normal(next)
      case Normal(next) => RunFirst(src, strict, fuel - 1, [Node(WhileTrue, body)], next)
      case Continuing(next) => RunFirst(src, strict, fuel - 1, [Node(WhileTrue, body)], next)
      case Raised(err) => Raised(err)
  {
    hide Run, ReadLines, RunChain, Exec, Block;
  }

  lemma {:induction false} ForeverStep(prog: Program, strict: bool, fuel: nat, body: Stmt, st: State)
    requires fuel > 0
    ensures Exec(prog, strict, fuel, Forever(body), st) ==
      match Block(Exec(prog, strict, fuel - 1, body, st), st.env)
      case Breaking(next) => Normal(next)
      case Normal(next) => Exec(prog, strict, fuel - 1, Forever(body), next)
      case Continuing(next) => Exec(prog, strict, fuel - 1, Forever(body), next)
      case Raised(err) => Raised(err)
  {
    hide Block, ReadOnce;
  }

  lemma {:induction false} NoFuel(prog: Program, src: Source, strict: bool, body: Stmt, st: State)
    requires Outline(body) != []
    ensures RunFirst(src, strict, 0, [Node(WhileTrue, Outline(body))], st) == Exec(prog, strict, 0, Forever(body), st)
  {
    hide Run, ReadLines, RunChain, ReadOnce;
  }

  /** One turn and the ones after it. */
  lemma {:induction false} ForeverLines(prog: Program, src: Source, strict: bool, fuel: nat, body: Stmt, st: State)
    requires LaidOut(prog, src) && Solid(Outline(body)) && Outline(body) != []
    ensures RunFirst(src, strict, fuel, [Node(WhileTrue, Outline(body))], st)
      == Exec(prog, strict, fuel, Forever(body), st)
    decreases fuel, 1, Forever(body), 0
  {
    hide Run, LaidOut, Solid, ReadLines, RunChain, RunFirst, Exec, Outline;
    if fuel == 0 {
      NoFuel(prog, src, strict, body, st);
    } else {
      OutlineRuns(prog, src, strict, fuel - 1, body, st);
      WhileStep(src, strict, fuel, Outline(body), st);
      ForeverStep(prog, strict, fuel, body, st);
      var r := Block(Exec(prog, strict, fuel - 1, body, st), st.env);
      if r.Normal? || r.Continuing? { ForeverLines(prog, src, strict, fuel - 1, body, r.st); }
    }
  }

  /** The first line of a chain, which is an `if` in one place and an `elif` in another. */
  ghost function Branch(first: bool, key: Name, json: string, yes: Stmt): Node<Head> {
    Node(if first then IfKeyIs(key, json) else ElifKeyIs(key, json), Outline(yes))
  }

  lemma {:induction false} IfKeyStep(prog: Program, strict: bool, fuel: nat, key: Name, json: string, yes: Stmt,
                                     no: Stmt, st: State)
    ensures Exec(prog, strict, fuel, IfKey(key, json, yes, no), st) ==
      if key !in st.env || !st.env[key].LKey? then Raised(IllFormed)
      else if st.env[key].s == json then Block(Exec(prog, strict, fuel, yes, st), st.env)
      else Block(Exec(prog, strict, fuel, no, st), st.env)
  {
    hide Block, ReadOnce;
  }

  lemma {:induction false} RestStep(no: Stmt)
    ensures Rest(no) ==
      if no.IfKey? then [Branch(false, no.key, no.json, no.yes)] + Rest(no.no) else [Node(Otherwise, Outline(no))]
  {
    hide Outline;
  }

  lemma {:induction false} ChainRuns(prog: Program, src: Source, strict: bool, fuel: nat, first: bool, key: Name,
                                     json: string, yes: Stmt, no: Stmt, st: State)
    requires LaidOut(prog, src) && Solid([Branch(first, key, json, yes)] + Rest(no))
    ensures RunChain(src, strict, fuel, [Branch(first, key, json, yes)] + Rest(no), key, json, st)
         == Exec(prog, strict, fuel, IfKey(key, json, yes, no), st)
    decreases fuel, 1, IfKey(key, json, yes, no), 0
  {
    hide Run, LaidOut, Solid, RunFirst, ReadLines, Following, RunChain, Exec, Outline, Rest, Block;
    var node := Branch(first, key, json, yes);
    ChainStep(src, strict, fuel, node, Rest(no), key, json, st);
    SolidParts([node], Rest(no));
    SolidOne(node);
    OutlineRuns(prog, src, strict, fuel, yes, st);
    IfKeyStep(prog, strict, fuel, key, json, yes, no, st);
    RestStep(no);
    if no.IfKey? {
      ChainRuns(prog, src, strict, fuel, false, no.key, no.json, no.yes, no.no, st);
      IfKeyBlock(prog, strict, fuel, no, st);
    } else {
      SolidOne(Node(Otherwise, Outline(no)));
      OutlineRuns(prog, src, strict, fuel, no, st);
    }
  }

  lemma {:induction false} IfKeyBlock(prog: Program, strict: bool, fuel: nat, s: Stmt, st: State)
    requires s.IfKey?
    ensures Block(Exec(prog, strict, fuel, s, st), st.env) == Exec(prog, strict, fuel, s, st)
  {
    BlockTwice(Exec(prog, strict, fuel, s.yes, st), st.env);
    BlockTwice(Exec(prog, strict, fuel, s.no, st), st.env);
  }

  lemma {:induction false} RestFollows(s: Stmt)
    ensures Following(Rest(s)) == |Rest(s)|
  {
    if s.IfKey? {
      RestFollows(s.no);
      assert Rest(s)[1..] == Rest(s.no);
    }
  }

  lemma {:induction false} IfKeyLines(prog: Program, src: Source, strict: bool, fuel: nat, key: Name, json: string,
                                      yes: Stmt, no: Stmt, st: State)
    requires LaidOut(prog, src) && Solid(Outline(IfKey(key, json, yes, no)))
    ensures Run(src, strict, fuel, Outline(IfKey(key, json, yes, no)), st)
      == Exec(prog, strict, fuel, IfKey(key, json, yes, no), st)
    decreases fuel, 1, IfKey(key, json, yes, no), 1
  {
    hide LaidOut, Solid, RunChain, Exec;
    var node := Branch(true, key, json, yes);
    var nodes := [node] + Rest(no);
    assert Outline(IfKey(key, json, yes, no)) == nodes;
    SolidParts([node], Rest(no));
    SolidOne(node);
    ChainRuns(prog, src, strict, fuel, true, key, json, yes, no, st);
    RestFollows(no);
    assert nodes[1..] == Rest(no) && nodes[0] == node;
    assert nodes[1 + Following(nodes[1..])..] == [];
  }

  /** Reading the lines and running them is running the statement they were laid out from. */
  lemma {:induction false} OutlineRuns(prog: Program, src: Source, strict: bool, fuel: nat, s: Stmt, st: State)
    requires LaidOut(prog, src) && Solid(Outline(s))
    ensures Run(src, strict, fuel, Outline(s), st) == Exec(prog, strict, fuel, s, st)
    decreases fuel, 1, s, 2
  {
    hide Run, ReadLines, RunChain;
    match s
    case Pass => RunNone(src, strict, fuel, st);
    case Then(a, b) => ThenRuns(prog, src, strict, fuel, a, b, st);
    case UnlessAccept(t, body) => UnderLine(prog, src, strict, fuel, UnlessTaken(t), body, st);
    case IfAccept(t, body) =>
      RunOne(src, strict, fuel, Node(IfTaken(t), Outline(body)), st);
      SolidOne(Node(IfTaken(t), Outline(body)));
      if StartsWith(st.toks, t) { OutlineRuns(prog, src, strict, fuel, body, st.(toks := st.toks[1..])); }
    case UnlessNull(body) => UnderLine(prog, src, strict, fuel, UnlessNullTaken, body, st);
    case UnlessSet(x, body) => UnderLine(prog, src, strict, fuel, UnlessHeld(x), body, st);
    case Forever(body) =>
      RunOne(src, strict, fuel, Node(WhileTrue, Outline(body)), st);
      SolidOne(Node(WhileTrue, Outline(body)));
      ForeverLines(prog, src, strict, fuel, body, st);
    case IfKey(key, json, yes, no) => IfKeyLines(prog, src, strict, fuel, key, json, yes, no, st);
    case DeclareRead(x, ty) => ReadLine(prog, src, strict, fuel, s, ty, st);
    case AssignRead(x, ty) => ReadLine(prog, src, strict, fuel, s, ty, st);
    case _ => SimpleLine(prog, src, strict, fuel, s, st);
  }

  lemma {:induction false} ReadLine(prog: Program, src: Source, strict: bool, fuel: nat, s: Stmt, ty: Encoding,
                                    st: State)
    requires LaidOut(prog, src) && (s.DeclareRead? || s.AssignRead?) && ty == s.ty
    ensures Run(src, strict, fuel, Outline(s), st) == Exec(prog, strict, fuel, s, st)
    decreases fuel, 0, Pass, 1
  {
    hide Run, ReadLines, RunChain, LaidOut, ReadOnce;
    RunOne(src, strict, fuel, Node(Plain(s), []), st);
    ReadAlike(prog, src, strict, fuel, ty, st);
  }

  lemma {:induction false} SimpleLine(prog: Program, src: Source, strict: bool, fuel: nat, s: Stmt, st: State)
    requires Simple(s)
    ensures Run(src, strict, fuel, Outline(s), st) == Exec(prog, strict, fuel, s, st)
  {
    hide Run, ReadLines, RunChain, Exec;
    RunOne(src, strict, fuel, Node(Plain(s), []), st);
    SimpleAlike(prog, strict, fuel, s, st);
  }

  lemma {:induction false} UnderLine(prog: Program, src: Source, strict: bool, fuel: nat, h: Head, body: Stmt,
                                     st: State)
    requires LaidOut(prog, src) && Solid([Node(h, Outline(body))])
    ensures Run(src, strict, fuel, [Node(h, Outline(body))], st)
      == RunFirst(src, strict, fuel, [Node(h, Outline(body))], st)
    ensures Opens(h) <==> Outline(body) != []
    ensures Run(src, strict, fuel, Outline(body), st) == Exec(prog, strict, fuel, body, st)
    decreases fuel, 1, body, 3
  {
    hide Run, RunFirst, Exec, LaidOut;
    RunOne(src, strict, fuel, Node(h, Outline(body)), st);
    SolidOne(Node(h, Outline(body)));
    OutlineRuns(prog, src, strict, fuel, body, st);
  }
}
