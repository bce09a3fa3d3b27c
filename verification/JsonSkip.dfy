/** `skip_value` steps over exactly one value, wherever in a document that value stands. */
module JsonSkip {
  import opened Common
  import opened JsonModel
  import opened JsonText

  /** What was consumed between two positions. */
  function Used(toks: seq<Token>, rest: seq<Token>): seq<Token>
    requires |rest| <= |toks|
  {
    toks[..|toks| - |rest|]
  }

  ghost predicate Closers(closing: seq<Token>) {
    forall i :: 0 <= i < |closing| ==> closing[i] == RBrace || closing[i] == RBracket
  }

  ghost predicate Moved(toks: seq<Token>, rest: seq<Token>, more: seq<Token>, depth: nat, cap: nat,
                        r: Outcome<seq<Token>>) {
    && |rest| <= |toks|
    && toks == Used(toks, rest) + rest
    && r == if Peak(Used(toks, rest), depth) <= cap then Ok(rest + more) else Failed(TooDeep)
  }

  /** One token put back in front of a skip that went right. */
  lemma {:induction false} Prepend(toks: seq<Token>, rest: seq<Token>, more: seq<Token>, depth: nat, cap: nat,
                                   r: Outcome<seq<Token>>)
    requires toks != [] && depth <= cap
    requires Moved(toks[1..], rest, more, DepthAfter(toks[0], depth), cap, r)
    ensures Moved(toks, rest, more, depth, cap, r)
  {
    var u := Used(toks[1..], rest);
    assert Used(toks, rest) == [toks[0]] + u;
    assert ([toks[0]] + u)[1..] == u;
  }

  lemma {:induction false} KeyAndColonElsewhere(toks: seq<Token>, more: seq<Token>)
    requires KeyAndColon(toks).Ok?
    ensures KeyAndColon(toks + more).Ok?
    ensures KeyAndColon(toks + more).value == (KeyAndColon(toks).value.0, KeyAndColon(toks).value.1 + more)
    ensures KeyAndColon(toks).value.1 == toks[2..]
  {
    assert (toks + more)[1..] == toks[1..] + more;
    assert (toks + more)[2..] == toks[2..] + more;
  }

  lemma {:induction false} SkipSuffix(toks: seq<Token>, closing: seq<Token>, depth: nat, cap: nat)
    requires Skip(toks, closing, depth, cap).Ok?
    ensures var rest := Skip(toks, closing, depth, cap).value; rest == toks[|toks| - |rest|..]
    decreases |toks|, 1
  {
    if toks[0].LBrace? || toks[0].LBracket? {
      var closer := if toks[0].LBrace? then RBrace else RBracket;
      if StartsWith(toks[1..], closer) {
        SkipAfterSuffix(toks[2..], closing, depth, cap);
      } else if toks[0].LBracket? {
        SkipSuffix(toks[1..], closing + [closer], depth + 1, cap);
      } else {
        SkipSuffix(toks[3..], closing + [closer], depth + 1, cap);
      }
    } else {
      SkipAfterSuffix(toks[1..], closing, depth, cap);
    }
  }

  lemma {:induction false} SkipAfterSuffix(toks: seq<Token>, closing: seq<Token>, depth: nat, cap: nat)
    requires SkipAfter(toks, closing, depth, cap).Ok?
    ensures var rest := SkipAfter(toks, closing, depth, cap).value; rest == toks[|toks| - |rest|..]
    decreases |toks|, 0
  {
    if closing != [] {
      if StartsWith(toks, Comma) {
        if closing[|closing| - 1] == RBrace {
          SkipSuffix(toks[3..], closing, depth, cap);
        } else {
          SkipSuffix(toks[1..], closing, depth, cap);
        }
      } else {
        SkipAfterSuffix(toks[1..], closing[..|closing| - 1], if depth == 0 then 0 else depth - 1, cap);
      }
    }
  }

  /** A skip that succeeds somewhere succeeds in front of anything, at any depth the cap allows. */
  lemma {:induction false} SkipElsewhere(toks: seq<Token>, closing: seq<Token>, d0: nat, cap0: nat, more: seq<Token>,
                                         depth: nat, cap: nat)
    requires Skip(toks, closing, d0, cap0).Ok?
    requires depth <= cap && Closers(closing)
    ensures Moved(toks, Skip(toks, closing, d0, cap0).value, more, depth, cap, Skip(toks + more, closing, depth, cap))
    decreases |toks|, 2
  {
    var rest := Skip(toks, closing, d0, cap0).value;
    assert (toks + more)[1..] == toks[1..] + more;
    if toks[0].LBrace? || toks[0].LBracket? {
      if depth + 1 > cap {
        SkipSuffix(toks, closing, d0, cap0);
        var u := Used(toks, rest);
        assert u[0] == toks[0] && Peak(u[1..], depth + 1) > cap;
      } else {
        OpenElsewhere(toks, closing, d0, cap0, more, depth, cap);
      }
    } else {
      SkipAfterElsewhere(toks[1..], closing, d0, cap0, more, depth, cap);
      Prepend(toks, rest, more, depth, cap, Skip(toks + more, closing, depth, cap));
    }
  }

  lemma {:induction false} OpenElsewhere(toks: seq<Token>, closing: seq<Token>, d0: nat, cap0: nat, more: seq<Token>,
                                         depth: nat, cap: nat)
    requires Skip(toks, closing, d0, cap0).Ok? && (toks[0].LBrace? || toks[0].LBracket?)
    requires depth + 1 <= cap && Closers(closing)
    ensures Moved(toks, Skip(toks, closing, d0, cap0).value, more, depth, cap, Skip(toks + more, closing, depth, cap))
    decreases |toks|, 1
  {
    var closer := if toks[0].LBrace? then RBrace else RBracket;
    if StartsWith(toks[1..], closer) {
      SkipAfterElsewhere(toks[2..], closing, d0, cap0, more, depth, cap);
      EmptyPair(toks, closer, closing, d0, cap0, more, depth, cap);
    } else if toks[0].LBracket? {
      OpenList(toks, closing, d0, cap0, more, depth, cap);
    } else {
      OpenBrace(toks, closing, d0, cap0, more, depth, cap);
    }
    Prepend(toks, Skip(toks, closing, d0, cap0).value, more, depth, cap, Skip(toks + more, closing, depth, cap));
  }

  lemma {:induction false} OpenList(toks: seq<Token>, closing: seq<Token>, d0: nat, cap0: nat, more: seq<Token>,
                                    depth: nat, cap: nat)
    requires Skip(toks, closing, d0, cap0).Ok? && toks[0].LBracket? && !StartsWith(toks[1..], RBracket)
    requires depth + 1 <= cap && Closers(closing)
    ensures Moved(toks[1..], Skip(toks, closing, d0, cap0).value, more, depth + 1, cap,
                  Skip(toks + more, closing, depth, cap))
    decreases |toks|, 0
  {
    SkipElsewhere(toks[1..], closing + [RBracket], d0 + 1, cap0, more, depth + 1, cap);
    assert (toks + more)[1..] == toks[1..] + more && toks[1..] != [];
  }

  lemma {:induction false} OpenBrace(toks: seq<Token>, closing: seq<Token>, d0: nat, cap0: nat, more: seq<Token>,
                                     depth: nat, cap: nat)
    requires Skip(toks, closing, d0, cap0).Ok? && toks[0].LBrace? && !StartsWith(toks[1..], RBrace)
    requires depth + 1 <= cap && Closers(closing)
    ensures Moved(toks[1..], Skip(toks, closing, d0, cap0).value, more, depth + 1, cap,
                  Skip(toks + more, closing, depth, cap))
    decreases |toks|, 0
  {
    SkipElsewhere(toks[1..][2..], closing + [RBrace], d0 + 1, cap0, more, depth + 1, cap);
    FirstKey(toks, closing, d0, cap0, more, depth, cap);
  }

  lemma {:induction false} EmptyPair(toks: seq<Token>, closer: Token, closing: seq<Token>, d0: nat, cap0: nat,
                                     more: seq<Token>,
                  depth: nat, cap: nat)
    requires Skip(toks, closing, d0, cap0).Ok? && depth + 1 <= cap
    requires (toks[0] == LBrace && closer == RBrace) || (toks[0] == LBracket && closer == RBracket)
    requires StartsWith(toks[1..], closer)
    requires Moved(toks[2..], Skip(toks, closing, d0, cap0).value, more, depth, cap,
                   SkipAfter(toks[2..] + more, closing, depth, cap))
    ensures Moved(toks[1..], Skip(toks, closing, d0, cap0).value, more, depth + 1, cap,
                  Skip(toks + more, closing, depth, cap))
  {
    assert (toks + more)[1..] == toks[1..] + more && (toks + more)[2..] == toks[2..] + more;
    assert toks[1..][1..] == toks[2..];
    Prepend(toks[1..], Skip(toks, closing, d0, cap0).value, more, depth + 1, cap,
            SkipAfter(toks[2..] + more, closing, depth, cap));
  }

  lemma {:induction false} FirstKey(toks: seq<Token>, closing: seq<Token>, d0: nat, cap0: nat, more: seq<Token>,
                                    depth: nat, cap: nat)
    requires Skip(toks, closing, d0, cap0).Ok? && depth + 1 <= cap
    requires toks[0] == LBrace && !StartsWith(toks[1..], RBrace)
    requires Moved(toks[1..][2..], Skip(toks, closing, d0, cap0).value, more, depth + 1, cap,
                   Skip(toks[1..][2..] + more, closing + [RBrace], depth + 1, cap))
    ensures Moved(toks[1..], Skip(toks, closing, d0, cap0).value, more, depth + 1, cap,
                  Skip(toks + more, closing, depth, cap))
  {
    KeyAndColonElsewhere(toks[1..], more);
    assert (toks + more)[1..] == toks[1..] + more;
    PrependKey(toks[1..], Skip(toks, closing, d0, cap0).value, more, depth + 1, cap,
               Skip(toks[1..][2..] + more, closing + [RBrace], depth + 1, cap));
  }

  lemma {:induction false} PrependKey(toks: seq<Token>, rest: seq<Token>, more: seq<Token>, depth: nat, cap: nat,
                                      r: Outcome<seq<Token>>)
    requires KeyAndColon(toks).Ok? && depth <= cap
    requires Moved(toks[2..], rest, more, depth, cap, r)
    ensures Moved(toks, rest, more, depth, cap, r)
  {
    assert toks[1..][1..] == toks[2..] && toks[1..][0] == Colon;
    Prepend(toks[1..], rest, more, depth, cap, r);
    Prepend(toks, rest, more, depth, cap, r);
  }

  lemma {:induction false} SkipAfterElsewhere(toks: seq<Token>, closing: seq<Token>, d0: nat, cap0: nat,
                                              more: seq<Token>, depth: nat, cap: nat)
    requires SkipAfter(toks, closing, d0, cap0).Ok?
    requires depth <= cap && Closers(closing)
    ensures Moved(toks, SkipAfter(toks, closing, d0, cap0).value, more, depth, cap,
                  SkipAfter(toks + more, closing, depth, cap))
    decreases |toks|, 0
  {
    var rest := SkipAfter(toks, closing, d0, cap0).value;
    var r := SkipAfter(toks + more, closing, depth, cap);
    if closing == [] {
      assert Used(toks, rest) == [];
    } else {
      var closer := closing[|closing| - 1];
      var tail := toks[1..];
      assert (toks + more)[1..] == tail + more;
      if StartsWith(toks, Comma) {
        if closer == RBrace {
          KeyAndColonElsewhere(tail, more);
          SkipElsewhere(tail[2..], closing, d0, cap0, more, depth, cap);
          PrependKey(tail, rest, more, depth, cap, r);
        } else {
          SkipElsewhere(tail, closing, d0, cap0, more, depth, cap);
        }
      } else {
        var d0' := if d0 == 0 then 0 else d0 - 1;
        var d' := if depth == 0 then 0 else depth - 1;
        SkipAfterElsewhere(tail, closing[..|closing| - 1], d0', cap0, more, d', cap);
      }
      Prepend(toks, rest, more, depth, cap, r);
    }
  }

  /** Reading one raw value back: all of it, unless the brackets go too deep. */
  lemma {:induction false} ReadRawBack(v: seq<Token>, rest: seq<Token>, depth: nat)
    requires OneValue(v) && depth <= MAX_NESTING_DEPTH
    ensures ReadRaw(v + rest, depth) ==
      if Peak(v, depth) <= MAX_NESTING_DEPTH then Ok((VRaw(v), rest)) else Failed(TooDeep)
  {
    SkipElsewhere(v, [], 0, |v|, rest, depth, MAX_NESTING_DEPTH);
    assert Used(v, []) == v && [] + rest == rest;
    assert (v + rest)[..|v|] == v;
  }

  /** A single value that opens with `null` is `null`. */
  lemma {:induction false} NullIsAlone(v: seq<Token>)
    requires OneValue(v) && v[0] == NullWord
    ensures v == [NullWord]
  {
    assert SkipAfter(v[1..], [], 0, |v|) == Ok(v[1..]);
  }
}
