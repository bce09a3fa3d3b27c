/**
 The emitter's `Body`: lines with the indentation kept for you.  Blocks exist
 in the output only as indentation, so the file ends with the proof that
 indentation is enough to find them again.
 */
module EmitBody {

  datatype Line<+T> = Line(depth: nat, text: T)

  /** A line and the block under it. */
  datatype Node<+T> = Node(head: T, body: seq<Node<T>>)

  function Layout<T>(nodes: seq<Node<T>>, depth: nat): seq<Line<T>> {
    if nodes == [] then []
    else [Line(depth, nodes[0].head)] + Layout(nodes[0].body, depth + 1) + Layout(nodes[1..], depth)
  }

  /** How many lines from the front are deeper than `depth`. */
  function Deeper<T>(lines: seq<Line<T>>, depth: nat): (n: nat)
    ensures n <= |lines|
    ensures forall i :: 0 <= i < n ==> lines[i].depth > depth
    ensures n < |lines| ==> lines[n].depth <= depth
  {
    if lines == [] || lines[0].depth <= depth then 0 else 1 + Deeper(lines[1..], depth)
  }

  /** The blocks, read off the indentation. */
  function Nest<T>(lines: seq<Line<T>>, depth: nat): seq<Node<T>>
    decreases |lines|
  {
    if lines == [] then []
    else
      var n := Deeper(lines[1..], depth);
      [Node(lines[0].text, Nest(lines[1..][..n], depth + 1))] + Nest(lines[1..][n..], depth)
  }

  lemma {:induction false} LayoutDepth<T>(nodes: seq<Node<T>>, depth: nat)
    ensures forall i :: 0 <= i < |Layout(nodes, depth)| ==> Layout(nodes, depth)[i].depth >= depth
    ensures nodes != [] ==> Layout(nodes, depth) != [] && Layout(nodes, depth)[0].depth == depth
  {
    if nodes != [] {
      LayoutDepth(nodes[0].body, depth + 1);
      LayoutDepth(nodes[1..], depth);
    }
  }

  lemma {:induction false} DeeperPrefix<T>(a: seq<Line<T>>, b: seq<Line<T>>, depth: nat)
    requires forall i :: 0 <= i < |a| ==> a[i].depth > depth
    requires b == [] || b[0].depth <= depth
    ensures Deeper(a + b, depth) == |a|
  {
    if a == [] {
      assert a + b == b;
    } else {
      assert (a + b)[1..] == a[1..] + b;
      DeeperPrefix(a[1..], b, depth);
    }
  }

  lemma {:induction false} LayoutSplit<T>(body: seq<Node<T>>, rest: seq<Node<T>>, depth: nat)
    ensures var a, b := Layout(body, depth + 1), Layout(rest, depth);
      Deeper(a + b, depth) == |a| && (a + b)[..|a|] == a && (a + b)[|a|..] == b
  {
    LayoutDepth(body, depth + 1);
    LayoutDepth(rest, depth);
    DeeperPrefix(Layout(body, depth + 1), Layout(rest, depth), depth);
  }

  lemma {:induction false} NestOne<T>(head: T, a: seq<Line<T>>, b: seq<Line<T>>, depth: nat)
    requires Deeper(a + b, depth) == |a| && (a + b)[..|a|] == a && (a + b)[|a|..] == b
    ensures Nest([Line(depth, head)] + (a + b), depth) == [Node(head, Nest(a, depth + 1))] + Nest(b, depth)
  {
    var lines := [Line(depth, head)] + (a + b);
    assert lines[1..] == a + b;
  }

  /** Indentation loses nothing: whatever blocks were written come back. */
  lemma {:induction false} NestLayout<T>(nodes: seq<Node<T>>, depth: nat)
    ensures Nest(Layout(nodes, depth), depth) == nodes
  {
    if nodes != [] {
      var a, b := Layout(nodes[0].body, depth + 1), Layout(nodes[1..], depth);
      NestLayout(nodes[0].body, depth + 1);
      NestLayout(nodes[1..], depth);
      LayoutSplit(nodes[0].body, nodes[1..], depth);
      NestOne(nodes[0].head, a, b, depth);
      assert Layout(nodes, depth) == [Line(depth, nodes[0].head)] + (a + b);
      assert nodes == [Node(nodes[0].head, nodes[0].body)] + nodes[1..];
    }
  }

  lemma {:induction false} LayoutConcat<T>(a: seq<Node<T>>, b: seq<Node<T>>, depth: nat)
    ensures Layout(a + b, depth) == Layout(a, depth) + Layout(b, depth)
  {
    if a == [] {
      assert a + b == b;
    } else {
      assert (a + b)[1..] == a[1..] + b;
      LayoutConcat(a[1..], b, depth);
    }
  }

  lemma {:induction false} Assoc<T>(a: seq<T>, b: seq<T>, c: seq<T>, d: seq<T>)
    ensures a + (b + c + d) == a + b + c + d
  {
  }

  class Body<T> {
    var lines: seq<Line<T>>
    var depth: nat
    var temporaries: nat

    constructor ()
      ensures lines == [] && depth == 0 && temporaries == 0
    {
      lines, depth, temporaries := [], 0, 0;
    }

    /** `body(text)` */
    method Put(text: T)
      modifies this`lines
      ensures lines == old(lines) + [Line(depth, text)]
    {
      lines := lines + [Line(depth, text)];
    }

    method Block(text: T)
      modifies this`lines, this`depth
      ensures lines == old(lines) + [Line(old(depth), text)]
      ensures depth == old(depth) + 1
    {
      Put(text);
      depth := depth + 1;
    }

    method Close()
      requires depth > 0
      modifies this`depth
      ensures depth == old(depth) - 1
    {
      depth := depth - 1;
    }

    /** `fresh`, whose answer is the number that goes after the stem. */
    method Fresh() returns (n: nat)
      modifies this`temporaries
      ensures n == temporaries == old(temporaries) + 1
    {
      temporaries := temporaries + 1;
      n := temporaries;
    }
  }
}
