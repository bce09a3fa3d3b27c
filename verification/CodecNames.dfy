/**
 `snake` of `plan.py`: the name a struct's generated functions carry.  It loses
 capitals and underscores, so two structs can come out with one name.
 */
module CodecNames {

  predicate Upper(c: char) { 'A' <= c <= 'Z' }

  predicate Lower(c: char) { 'a' <= c <= 'z' }

  predicate Digit(c: char) { '0' <= c <= '9' }

  function ToLower(c: char): char {
    if Upper(c) then c + 32 as char else c
  }

  /** How far the small letters go. */
  function Small(s: string): (n: nat)
    ensures n <= |s|
  {
    if s == [] || !Lower(s[0]) then 0 else 1 + Small(s[1..])
  }

  /** The first substitution: any character, and then a capital with small letters after it. */
  function Words(s: string): string
    decreases |s|
  {
    if |s| < 3 then s
    else if s[0] != '\n' && Upper(s[1]) && Lower(s[2]) then
      var n := 2 + Small(s[2..]);
      [s[0], '_'] + s[1..n] + Words(s[n..])
    else [s[0]] + Words(s[1..])
  }

  /** The second: a small letter or a digit, and then a capital. */
  function Humps(s: string): string
    decreases |s|
  {
    if |s| < 2 then s
    else if (Lower(s[0]) || Digit(s[0])) && Upper(s[1]) then [s[0], '_', s[1]] + Humps(s[2..])
    else [s[0]] + Humps(s[1..])
  }

  function Lowered(s: string): string {
    if s == [] then [] else [ToLower(s[0])] + Lowered(s[1..])
  }

  function Snake(name: string): string {
    Lowered(Humps(Words(name)))
  }

  // --- where the underscores go ----------------------------------------------------

  /**
   A word starts at a capital that follows a small letter or a digit, and at one
   that a small letter follows, wherever the two substitutions happen to match.
   */
  predicate Starts(s: string, k: nat)
    requires 0 < k < |s|
  {
    && 'A' <= s[k] <= 'Z'
    && ('a' <= s[k - 1] <= 'z' || '0' <= s[k - 1] <= '9'
        || (s[k - 1] != '\n' && k + 1 < |s| && 'a' <= s[k + 1] <= 'z'))
  }

  /** The name from `k` on in small letters, with an underscore where a word starts. */
  function Spelled(s: string, k: nat): string
    requires k <= |s|
    decreases |s| - k
  {
    if k == |s| then [] else (if k > 0 && Starts(s, k) then ['_'] else []) + [ToLower(s[k])] + Spelled(s, k + 1)
  }

  /** The second substitution behind a character. */
  function HumpsAfter(before: char, s: string): string
    decreases |s|
  {
    if s == [] then []
    else
      (if (Lower(before) || Digit(before)) && Upper(s[0]) then ['_'] else []) + [s[0]] + HumpsAfter(s[0], s[1..])
  }

  lemma {:induction false} HumpsLocal(s: string)
    requires s != []
    ensures Humps(s) == [s[0]] + HumpsAfter(s[0], s[1..])
    decreases |s|
  {
    if |s| >= 2 {
      if (Lower(s[0]) || Digit(s[0])) && Upper(s[1]) {
        if |s| > 2 { HumpsLocal(s[2..]); }
        assert s[1..][1..] == s[2..];
        if |s| > 2 { assert !Lower(s[1]) && !Digit(s[1]); }
      } else {
        HumpsLocal(s[1..]);
      }
    }
  }

  /** Small letters are passed over. */
  lemma {:induction false} HumpsSmall(before: char, small: string, s: string)
    requires AllSmall(small)
    ensures HumpsAfter(before, small + s)
            == small + HumpsAfter(if small == [] then before else small[|small| - 1], s)
    decreases |small|
  {
    if small == [] {
      assert small + s == s;
    } else {
      assert (small + s)[1..] == small[1..] + s;
      HumpsSmall(small[0], small[1..], s);
    }
  }

  lemma {:induction false} LoweredConcat(a: string, b: string)
    ensures Lowered(a + b) == Lowered(a) + Lowered(b)
  {
    if a == [] {
      assert a + b == b;
    } else {
      assert (a + b)[1..] == a[1..] + b;
      LoweredConcat(a[1..], b);
    }
  }

  lemma {:induction false} SmallAre(s: string)
    ensures forall i :: 0 <= i < Small(s) ==> Lower(s[i])
    ensures Small(s) < |s| ==> !Lower(s[Small(s)])
  {
    if s != [] && Lower(s[0]) { SmallAre(s[1..]); }
  }

  lemma {:induction false} SpelledPlain(s: string, k: nat)
    requires 0 < k < |s| && Lower(s[k])
    ensures Spelled(s, k) == [s[k]] + Spelled(s, k + 1)
  {
  }

  /** A run of small letters is spelled as it is. */
  lemma {:induction false} SpelledSmall(s: string, k: nat, n: nat)
    requires 0 < k <= n <= |s| && forall i :: k <= i < n ==> Lower(s[i])
    ensures Spelled(s, k) == s[k..n] + Spelled(s, n)
    decreases n - k
  {
    if k < n {
      hide Spelled;
      SpelledPlain(s, k);
      SpelledSmall(s, k + 1, n);
      assert s[k..n] == [s[k]] + s[k + 1..n];
    }
  }

  lemma {:induction false} LoweredSmall(s: string)
    requires forall i :: 0 <= i < |s| ==> Lower(s[i])
    ensures Lowered(s) == s
  {
    if s != [] { LoweredSmall(s[1..]); }
  }

  lemma {:induction false} WordsFirst(s: string)
    requires s != []
    ensures Words(s) != [] && Words(s)[0] == s[0]
  {
  }

  /** Both substitutions behind the character at `k`. */
  lemma {:induction false} WordsHumps(s: string, k: nat)
    requires k < |s|
    ensures Words(s[k..]) != [] && Words(s[k..])[0] == s[k]
    ensures Lowered(HumpsAfter(s[k], Words(s[k..])[1..])) == Spelled(s, k + 1)
    decreases |s| - k, 1
  {
    WordsFirst(s[k..]);
    if Match(s, k) {
      WordHumps(s, k);
    } else {
      OtherHumps(s, k);
    }
  }

  /** A match of the first substitution. */
  predicate Match(s: string, k: nat) {
    k + 2 < |s| && s[k] != '\n' && Upper(s[k + 1]) && Lower(s[k + 2])
  }

  /** Where the small letters of a match end. */
  function End(s: string, k: nat): (n: nat)
    requires Match(s, k)
    ensures k + 3 <= n <= |s|
  {
    k + 2 + Small(s[k + 2..])
  }

  lemma {:induction false} EndsSmall(s: string, k: nat)
    requires Match(s, k)
    ensures var n := End(s, k);
      (forall i :: k + 2 <= i < n ==> Lower(s[i])) && AllSmall(s[k + 2..n])
  {
    var t := s[k + 2..];
    SmallAre(t);
    forall i | k + 2 <= i < End(s, k) ensures Lower(s[i]) { assert s[i] == t[i - k - 2]; }
  }

  predicate AllSmall(s: string) {
    forall i :: 0 <= i < |s| ==> Lower(s[i])
  }

  lemma {:induction false} WordsOf(t: string)
    requires Match(t, 0)
    ensures var n := End(t, 0); Words(t) == [t[0], '_'] + t[1..n] + Words(t[n..])
  {
  }

  lemma {:induction false} WordsMatch(s: string, k: nat)
    requires Match(s, k)
    ensures Words(s[k..]) == [s[k]] + (['_', s[k + 1]] + (s[k + 2..End(s, k)] + Words(s[End(s, k)..])))
  {
    hide Words, Small;
    var t, n := s[k..], End(s, k);
    assert t[2..] == s[k + 2..];
    WordsOf(t);
    assert t[1..n - k] == [s[k + 1]] + s[k + 2..n];
    assert t[n - k..] == s[n..];
  }

  lemma {:induction false} HumpsWord(before: char, capital: char, small: string, rest: string)
    requires Upper(capital) && small != [] && AllSmall(small)
    ensures Lowered(HumpsAfter(before, ['_', capital] + (small + rest)))
            == ['_', ToLower(capital)] + (small + Lowered(HumpsAfter(small[|small| - 1], rest)))
  {
    var word := ['_', capital] + (small + rest);
    var after := HumpsAfter(small[|small| - 1], rest);
    assert word[1..] == [capital] + (small + rest);
    assert word[1..][1..] == small + rest;
    HumpsSmall(capital, small, rest);
    assert HumpsAfter(before, word) == ['_', capital] + (small + after);
    LoweredConcat(['_', capital], small + after);
    LoweredConcat(small, after);
    LoweredSmall(small);
    assert ['_', capital][1..] == [capital] && [capital][1..] == [];
  }

  lemma {:induction false} WordHumps(s: string, k: nat)
    requires Match(s, k)
    ensures Lowered(HumpsAfter(s[k], Words(s[k..])[1..])) == Spelled(s, k + 1)
    decreases |s| - k, 0
  {
    hide Words, HumpsAfter, Lowered;
    var n := End(s, k);
    var small := s[k + 2..n];
    EndsSmall(s, k);
    WordsMatch(s, k);
    HumpsWord(s[k], s[k + 1], small, Words(s[n..]));
    BehindSmall(s, n);
    SpelledSmall(s, k + 2, n);
    assert Words(s[k..])[1..] == ['_', s[k + 1]] + (small + Words(s[n..]));
    assert small[|small| - 1] == s[n - 1];
  }

  /** What comes after a small letter at which a match may have ended. */
  lemma {:induction false} BehindSmall(s: string, k: nat)
    requires 0 < k <= |s| && Lower(s[k - 1])
    ensures Lowered(HumpsAfter(s[k - 1], Words(s[k..]))) == Spelled(s, k)
    decreases |s| - k, 3
  {
    if k < |s| { Behind(s, k); }
  }

  /** One character whose break the first substitution did not make. */
  lemma {:induction false} Behind(s: string, k: nat)
    requires 0 < k < |s| && (Starts(s, k) <==> Upper(s[k]) && (Lower(s[k - 1]) || Digit(s[k - 1])))
    ensures Lowered(HumpsAfter(s[k - 1], Words(s[k..]))) == Spelled(s, k)
    decreases |s| - k, 2
  {
    WordsHumps(s, k);
    var w := Words(s[k..]);
    var mark := if Starts(s, k) then ['_'] else [];
    var tail := HumpsAfter(s[k], w[1..]);
    assert HumpsAfter(s[k - 1], w) == mark + [s[k]] + tail;
    LoweredConcat(mark + [s[k]], tail);
    LoweredConcat(mark, [s[k]]);
  }

  lemma {:induction false} OtherHumps(s: string, k: nat)
    requires k < |s| && !Match(s, k)
    ensures Lowered(HumpsAfter(s[k], Words(s[k..])[1..])) == Spelled(s, k + 1)
    decreases |s| - k, 0
  {
    var t := s[k..];
    if k + 1 < |s| {
      assert Words(t)[1..] == Words(s[k + 1..]) by {
        assert t[1..] == s[k + 1..];
        if |t| == 2 { assert Words(t) == t && Words(t[1..]) == t[1..]; }
      }
      Behind(s, k + 1);
    }
  }

  /** The two substitutions together put an underscore exactly where a word starts. */
  lemma {:induction false} SnakeExactly(name: string)
    ensures Snake(name) == Spelled(name, 0)
  {
    if name != [] {
      WordsHumps(name, 0);
      assert name[0..] == name;
      var w := Words(name);
      HumpsLocal(w);
      assert Lowered([w[0]] + HumpsAfter(w[0], w[1..]))
          == Lowered([w[0]]) + Lowered(HumpsAfter(w[0], w[1..])) by {
        LoweredConcat([w[0]], HumpsAfter(w[0], w[1..]));
      }
    }
  }

  // --- what it keeps --------------------------------------------------------------

  /** A name with its underscores dropped and its capitals lowered. */
  function Letters(s: string): string {
    if s == [] then []
    else (if s[0] == '_' then [] else [ToLower(s[0])]) + Letters(s[1..])
  }

  lemma {:induction false} LettersConcat(a: string, b: string)
    ensures Letters(a + b) == Letters(a) + Letters(b)
  {
    if a == [] {
      assert a + b == b;
    } else {
      assert (a + b)[1..] == a[1..] + b;
      LettersConcat(a[1..], b);
    }
  }

  lemma {:induction false} LettersMarked(c: char, rest: string)
    ensures Letters([c, '_'] + rest) == Letters([c]) + Letters(rest)
  {
    assert [c, '_'] + rest == [c] + (['_'] + rest);
    LettersConcat([c], ['_'] + rest);
    LettersConcat(['_'], rest);
    assert Letters(['_']) == [];
  }

  lemma {:induction false} LettersWord(c: char, word: string, rest: string, changed: string)
    requires Letters(changed) == Letters(rest)
    ensures Letters([c, '_'] + word + changed) == Letters([c] + word + rest)
  {
    LettersMarked(c, word + changed);
    LettersConcat(word, changed);
    LettersConcat([c], word + rest);
    LettersConcat(word, rest);
    assert [c, '_'] + word + changed == [c, '_'] + (word + changed);
    assert [c] + word + rest == [c] + (word + rest);
  }

  lemma {:induction false} LettersOne(c: char, rest: string, changed: string)
    requires Letters(changed) == Letters(rest)
    ensures Letters([c] + changed) == Letters([c] + rest)
  {
    LettersConcat([c], changed);
    LettersConcat([c], rest);
  }

  lemma {:induction false} WordsKeep(s: string)
    ensures Letters(Words(s)) == Letters(s)
    decreases |s|
  {
    if |s| >= 3 {
      if s[0] != '\n' && Upper(s[1]) && Lower(s[2]) {
        var n := 2 + Small(s[2..]);
        WordsKeep(s[n..]);
        LettersWord(s[0], s[1..n], s[n..], Words(s[n..]));
        assert s == [s[0]] + s[1..n] + s[n..];
      } else {
        WordsKeep(s[1..]);
        LettersOne(s[0], s[1..], Words(s[1..]));
        assert s == [s[0]] + s[1..];
      }
    }
  }

  lemma {:induction false} HumpsKeep(s: string)
    ensures Letters(Humps(s)) == Letters(s)
    decreases |s|
  {
    if |s| >= 2 {
      if (Lower(s[0]) || Digit(s[0])) && Upper(s[1]) {
        HumpsKeep(s[2..]);
        LettersWord(s[0], [s[1]], s[2..], Humps(s[2..]));
        assert Humps(s) == [s[0], '_'] + [s[1]] + Humps(s[2..]);
        assert s == [s[0]] + [s[1]] + s[2..];
      } else {
        HumpsKeep(s[1..]);
        LettersOne(s[0], s[1..], Humps(s[1..]));
        assert s == [s[0]] + s[1..];
      }
    }
  }

  lemma {:induction false} LoweredKeep(s: string)
    ensures Letters(Lowered(s)) == Letters(s)
  {
    if s != [] {
      LoweredKeep(s[1..]);
      assert Lowered(s)[1..] == Lowered(s[1..]);
    }
  }

  /** Only underscores and capitals are lost: names with other letters get other function names. */
  lemma {:induction false} SnakeKeeps(a: string, b: string)
    requires Snake(a) == Snake(b)
    ensures Letters(a) == Letters(b)
  {
    hide Words, Humps;
    WordsKeep(a);
    WordsKeep(b);
    HumpsKeep(Words(a));
    HumpsKeep(Words(b));
    LoweredKeep(Humps(Words(a)));
    LoweredKeep(Humps(Words(b)));
  }

  /** And they are lost: two names of structs, one name of functions. */
  lemma {:induction false} SnakeCollides()
    ensures Snake("ID") == Snake("Id") && "ID" != "Id"
  {
    assert "ID"[1] != "Id"[1];
    assert Humps("ID") == "ID" && Humps("Id") == "Id";
    assert "ID"[1..] == "D" && "Id"[1..] == "d";
    assert Lowered("D") == Lowered("d");
  }
}
