/**
 Reading back what was printed, for every accepted plan and every value in it.

 `Norm` is the value that comes back.  It differs from the value that went in
 in exactly the places where two values print alike: a filled Optional whose
 inside prints `null`, and an empty raw message that is written out.
 */
module JsonRoundTrip {
  import opened Common
  import opened JsonModel
  import opened JsonText
  import opened JsonSkip

  /** The value is spelled `null`, so an Optional around it cannot tell it from nothing. */
  ghost predicate PrintsNull(e: Encoding, v: Value)
    decreases v
  {
    match e
    case EOptional(a) => v.VNone? || (v.VSome? && PrintsNull(a, v.inner))
    case ERaw => v.VRaw? && (v.toks == [] || v.toks == [NullWord])
    case _ => false
  }

  /** The member a struct's field name belongs to. */
  function MemberNamed(ms: seq<Member>, name: string): Option<Member> {
    if ms == [] then None
    else if ms[0].name == name then Some(ms[0])
    else MemberNamed(ms[1..], name)
  }

  /** What a round trip makes of a value. */
  ghost function Norm(p: Codecs, e: Encoding, v: Value): Value
    decreases v, 1
  {
    match e
    case ERaw => if v == VRaw([]) then VRaw([NullWord]) else v
    case EOptional(a) =>
      if !v.VSome? then v else if PrintsNull(a, v.inner) then VNone else VSome(Norm(p, a, v.inner))
    case EList(a) => if v.VList? then VList(NormItems(p, a, v.items)) else v
    case EDict(a) => if v.VDict? then VDict(map k | k in v.entries :: Norm(p, a, v.entries[k])) else v
    case EStruct(n) =>
      if n in p && v.VStruct? then VStruct(map k | k in v.fields :: NormField(p, p[n].members, v, k)) else v
    case _ => v
  }

  ghost function NormField(p: Codecs, ms: seq<Member>, v: Value, name: string): Value
    requires v.VStruct? && name in v.fields
    decreases v, 0
  {
    match MemberNamed(ms, name)
    case Some(m) => if Written(m, v.fields[name]) then Norm(p, m.encoding, v.fields[name]) else v.fields[name]
    case None => v.fields[name]
  }

  ghost function NormItems(p: Codecs, a: Encoding, items: seq<Value>): (r: seq<Value>)
    ensures |r| == |items|
    decreases items, 0
  {
    if items == [] then [] else [Norm(p, a, items[0])] + NormItems(p, a, items[1..])
  }

  /** The deepest bracket the printed value opens, `depth` levels down already. */
  ghost function Deepest(p: Codecs, e: Encoding, v: Value, depth: nat): (r: nat)
    decreases v, 1, 0
  {
    match e
    case ERaw => if v.VRaw? then Peak(v.toks, depth) else depth
    case EOptional(a) => if v.VSome? then Deepest(p, a, v.inner, depth) else depth
    case EList(a) => if v.VList? then DeepestItem(p, a, v.items, depth + 1) else depth
    case EDict(a) =>
      if v.VDict? then DeepestEntry(p, a, v, SortedKeys(v.entries.Keys), depth + 1) else depth
    case EStruct(n) => if n in p && v.VStruct? then DeepestField(p, p[n].members, v, depth + 1) else depth
    case _ => depth
  }

  ghost function DeepestField(p: Codecs, ms: seq<Member>, v: Value, depth: nat): (r: nat)
    decreases v, 0, |ms|
  {
    if ms == [] then depth
    else if WrittenIn(ms[0], v) then
      Max(Deepest(p, ms[0].encoding, v.fields[ms[0].name], depth), DeepestField(p, ms[1..], v, depth))
    else DeepestField(p, ms[1..], v, depth)
  }

  ghost function DeepestItem(p: Codecs, a: Encoding, items: seq<Value>, depth: nat): (r: nat)
    decreases items, 0, 0
  {
    if items == [] then depth
    else Max(Deepest(p, a, items[0], depth), DeepestItem(p, a, items[1..], depth))
  }

  ghost function DeepestEntry(p: Codecs, a: Encoding, v: Value, ks: seq<string>, depth: nat): (r: nat)
    decreases v, 0, |ks|
  {
    if ks == [] || !v.VDict? || ks[0] !in v.entries then depth
    else Max(Deepest(p, a, v.entries[ks[0]], depth), DeepestEntry(p, a, v, ks[1..], depth))
  }

  // --- how printed text begins -----------------------------------------------------

  predicate OpensValue(t: Token) {
    t.LBrace? || t.LBracket? || t.Text? || t.NullWord? || t.BoolWord? || t.NumWord?
  }

  lemma {:induction false} PrintOpens(p: Codecs, e: Encoding, v: Value)
    requires HasType(p, e, v)
    ensures Print(p, e, v) != [] && OpensValue(Print(p, e, v)[0])
    ensures Print(p, e, v)[0] == NullWord <==> PrintsNull(e, v)
    ensures PrintsNull(e, v) ==> Print(p, e, v) == [NullWord]
    decreases v
  {
    match e
    case EOptional(a) => if v.VSome? { PrintOpens(p, a, v.inner); }
    case ERaw =>
      if v.toks != [] && v.toks[0] == NullWord { NullIsAlone(v.toks); }
    case _ =>
  }

  lemma {:induction false} NullIsShallow(p: Codecs, e: Encoding, v: Value, depth: nat)
    requires HasType(p, e, v) && PrintsNull(e, v)
    ensures Deepest(p, e, v, depth) == depth
    decreases v
  {
    if e.EOptional? && v.VSome? { NullIsShallow(p, e.arg, v.inner, depth); }
    if e.ERaw? && v.toks != [] {
      assert v.toks[0] == NullWord && v.toks[1..] == [];
      assert Peak(v.toks, depth) == Max(depth, Peak([], depth));
    }
  }

  ghost predicate AnyWritten(ms: seq<Member>, v: Value) {
    ms != [] && (WrittenIn(ms[0], v) || AnyWritten(ms[1..], v))
  }

  /** The only thing `first` changes is the comma in front. */
  lemma {:induction false} FieldsOpen(p: Codecs, ms: seq<Member>, v: Value)
    ensures AnyWritten(ms, v) ==> PrintFields(p, ms, v, false) == [Comma] + PrintFields(p, ms, v, true)
    ensures AnyWritten(ms, v) ==> PrintFields(p, ms, v, true) != [] && PrintFields(p, ms, v, true)[0].Text?
    ensures !AnyWritten(ms, v) ==> PrintFields(p, ms, v, false) == PrintFields(p, ms, v, true) == []
  {
    if ms != [] && !WrittenIn(ms[0], v) { FieldsOpen(p, ms[1..], v); }
  }

  // --- the round trip -----------------------------------------------------------------

  ghost predicate Ready(p: Codecs, e: Encoding, v: Value, depth: nat) {
    Accepted(p) && Linked(p) && Readable(p, e) && HasType(p, e, v) && depth <= MAX_NESTING_DEPTH
  }

  ghost function Back<T>(deepest: nat, v: T, rest: seq<Token>): Outcome<(T, seq<Token>)> {
    if deepest <= MAX_NESTING_DEPTH then Ok((v, rest)) else Failed(TooDeep)
  }

  lemma {:induction false} ScalarBack(p: Codecs, e: Encoding, v: Value, rest: seq<Token>)
    requires HasType(p, e, v) && !Composite(e) && !e.ERaw? && !e.EStruct?
    ensures ReadScalar(e, Print(p, e, v) + rest) == Ok((v, rest))
  {
    assert (Print(p, e, v) + rest)[1..] == rest;
  }

  /**
   Reading what was printed gives `Norm` of it and leaves what follows, and
   fails only when the brackets go past the cap.
   */
  lemma {:induction false} ReadBack(p: Codecs, strict: bool, e: Encoding, v: Value, rest: seq<Token>, depth: nat)
    requires Ready(p, e, v, depth)
    ensures Read(p, strict, e, Print(p, e, v) + rest, depth) == Back(Deepest(p, e, v, depth), Norm(p, e, v), rest)
    decreases v, 2, 0
  {
    match e
    case ERaw =>
      if v.toks == [] {
        ReadRawBack([NullWord], rest, depth);
      } else {
        ReadRawBack(v.toks, rest, depth);
      }
    case EOptional(a) =>
      if v.VSome? {
        PrintOpens(p, a, v.inner);
        if PrintsNull(a, v.inner) {
          assert ([NullWord] + rest)[1..] == rest;
          NullIsShallow(p, a, v.inner, depth);
        } else {
          ReadBack(p, strict, a, v.inner, rest, depth);
        }
      } else {
        assert ([NullWord] + rest)[1..] == rest;
      }
    case EList(a) => ListBack(p, strict, a, v, rest, depth);
    case EDict(a) => DictBack(p, strict, a, v, rest, depth);
    case EStruct(n) => StructBack(p, strict, n, v, rest, depth);
    case _ => ScalarBack(p, e, v, rest);
  }

  // One turn of each reading loop, with the text of one element in front.

  lemma {:induction false} ItemStep(p: Codecs, strict: bool, a: Encoding, toks: seq<Token>, depth: nat,
                                    acc: seq<Value>, x: Value,
                 next: seq<Token>)
    ensures Read(p, strict, a, toks, depth) == Failed(TooDeep) ==>
      ReadItems(p, strict, a, toks, depth, acc) == Failed(TooDeep)
    ensures Read(p, strict, a, toks, depth) == Ok((x, [Comma] + next)) ==>
      ReadItems(p, strict, a, toks, depth, acc) == ReadItems(p, strict, a, next, depth, acc + [x])
    ensures Read(p, strict, a, toks, depth) == Ok((x, [RBracket] + next)) ==>
      ReadItems(p, strict, a, toks, depth, acc) == Ok((VList(acc + [x]), next))
  {
    assert ([Comma] + next)[1..] == ([RBracket] + next)[1..] == next;
  }

  lemma {:induction false} ListShape(p: Codecs, strict: bool, a: Encoding, body: seq<Token>, depth: nat)
    ensures Read(p, strict, EList(a), [LBracket] + body, depth) ==
      if depth + 1 > MAX_NESTING_DEPTH then Failed(TooDeep)
      else if StartsWith(body, RBracket) then Ok((VList([]), body[1..]))
      else ReadItems(p, strict, a, body, depth + 1, [])
  {
    assert ([LBracket] + body)[1..] == body;
    if body != [] { assert ([LBracket] + body)[2..] == body[1..]; }
  }

  lemma {:induction false} DictShape(p: Codecs, strict: bool, a: Encoding, body: seq<Token>, depth: nat)
    ensures Read(p, strict, EDict(a), [LBrace] + body, depth) ==
      if depth + 1 > MAX_NESTING_DEPTH then Failed(TooDeep)
      else if StartsWith(body, RBrace) then Ok((VDict(map[]), body[1..]))
      else ReadEntries(p, strict, a, body, depth + 1, map[])
  {
    assert ([LBrace] + body)[1..] == body;
    if body != [] { assert ([LBrace] + body)[2..] == body[1..]; }
  }

  ghost function Finishing(c: Codec, r: Outcome<(map<string, Value>, seq<Token>)>): Outcome<(Value, seq<Token>)> {
    match r
    case Failed(err) => Failed(err)
    case Ok(st) =>
      match Finish(c, st.0, 0)
      case Failed(err) => Failed(err)
      case Ok(fields) => Ok((VStruct(fields), st.1))
  }

  lemma {:induction false} StructShape(p: Codecs, strict: bool, n: string, body: seq<Token>, depth: nat)
    requires n in p && Decodable(p[n])
    ensures ReadStruct(p, strict, n, [LBrace] + body, depth) ==
      if depth + 1 > MAX_NESTING_DEPTH then Failed(TooDeep)
      else Finishing(p[n], if StartsWith(body, RBrace) then Ok((map[], body[1..]))
                           else ReadMembers(p, strict, p[n], body, depth + 1, map[]))
  {
    assert ([LBrace] + body)[1..] == body;
    if body != [] { assert ([LBrace] + body)[2..] == body[1..]; }
  }

  lemma {:induction false} EntryStep(p: Codecs, strict: bool, a: Encoding, key: string, toks: seq<Token>, depth: nat,
                  acc: map<string, Value>, x: Value, next: seq<Token>)
    ensures Read(p, strict, a, toks, depth) == Failed(TooDeep) ==>
      ReadEntries(p, strict, a, [Text(key), Colon] + toks, depth, acc) == Failed(TooDeep)
    ensures Read(p, strict, a, toks, depth) == Ok((x, [Comma] + next)) ==>
      ReadEntries(p, strict, a, [Text(key), Colon] + toks, depth, acc) == ReadEntries(p, strict, a, next, depth,
            acc[key := x])
    ensures Read(p, strict, a, toks, depth) == Ok((x, [RBrace] + next)) ==>
      ReadEntries(p, strict, a, [Text(key), Colon] + toks, depth, acc) == Ok((VDict(acc[key := x]), next))
  {
    KeyInFront(key, toks);
    assert ([Comma] + next)[1..] == ([RBrace] + next)[1..] == next;
  }

  lemma {:induction false} KeyInFront(key: string, toks: seq<Token>)
    ensures KeyAndColon([Text(key), Colon] + toks) == Ok((key, toks))
  {
    var all := [Text(key), Colon] + toks;
    assert all[1..][0] == Colon && all[2..] == toks;
  }

  lemma {:induction false} MemberStep(p: Codecs, strict: bool, c: Codec, key: string, toks: seq<Token>, depth: nat,
                   slots: map<string, Value>)
    ensures ReadMembers(p, strict, c, [Text(key), Colon] + toks, depth, slots) ==
      match ReadMember(p, strict, c, key, toks, depth, slots)
      case Failed(err) => Failed(err)
      case Ok(st) => AfterMember(p, strict, c, st.1, depth, st.0)
  {
    KeyInFront(key, toks);
  }

  ghost predicate AllTyped(p: Codecs, a: Encoding, items: seq<Value>) {
    forall i :: 0 <= i < |items| ==> HasType(p, a, items[i])
  }

  lemma {:induction false} ListBack(p: Codecs, strict: bool, a: Encoding, v: Value, rest: seq<Token>, depth: nat)
    requires Ready(p, EList(a), v, depth)
    ensures Read(p, strict, EList(a), Print(p, EList(a), v) + rest, depth)
            == Back(Deepest(p, EList(a), v, depth), Norm(p, EList(a), v), rest)
    decreases v, 1, 0
  {
    hide Read, ReadItems, Accepted, Linked;
    var body := ItemsFrom(p, a, v.items, rest);
    assert Print(p, EList(a), v) + rest == [LBracket] + body;
    ListShape(p, strict, a, body, depth);
    if v.items == [] {
      assert body[1..] == rest;
    } else {
      PrintOpens(p, a, v.items[0]);
      assert body[0] == Print(p, a, v.items[0])[0];
      if depth + 1 <= MAX_NESTING_DEPTH {
        assert AllTyped(p, a, v.items);
        ItemsBack(p, strict, a, v.items, rest, depth + 1, []);
        assert [] + NormItems(p, a, v.items) == NormItems(p, a, v.items);
      } else {
        DeepestItemGrows(p, a, v.items, depth + 1);
      }
    }
  }

  lemma {:induction false} DeepestItemGrows(p: Codecs, a: Encoding, items: seq<Value>, depth: nat)
    ensures DeepestItem(p, a, items, depth) >= depth
  {
    if items != [] { DeepestItemGrows(p, a, items[1..], depth); }
  }

  /** The text of the items still to come, and what follows the first of them. */
  ghost function ItemsFrom(p: Codecs, a: Encoding, items: seq<Value>, rest: seq<Token>): seq<Token> {
    PrintItems(p, a, items, true) + [RBracket] + rest
  }

  ghost function ItemsAfter(p: Codecs, a: Encoding, items: seq<Value>, rest: seq<Token>): seq<Token> {
    if items == [] then [RBracket] + rest else [Comma] + ItemsFrom(p, a, items, rest)
  }

  /** Text in three parts, the last of which starts with a comma unless it is empty. */
  lemma {:induction false} Splice(all: seq<Token>, head: seq<Token>, mid: seq<Token>, tail: seq<Token>,
                                  open: seq<Token>, close: Token,
               rest: seq<Token>)
    requires all == head + mid + tail
    ensures tail == [] ==> all + [close] + rest == head + (mid + ([close] + rest))
    ensures tail == [Comma] + open ==> all + [close] + rest == head + (mid + ([Comma] + (open + [close] + rest)))
  {
    if tail == [Comma] + open {
      assert tail + [close] + rest == [Comma] + (open + [close] + rest);
    }
    assert all + [close] + rest == head + (mid + (tail + [close] + rest));
  }

  lemma {:induction false} ItemsText(p: Codecs, a: Encoding, items: seq<Value>, rest: seq<Token>)
    requires items != []
    ensures ItemsFrom(p, a, items, rest) == Print(p, a, items[0]) + ItemsAfter(p, a, items[1..], rest)
  {
    hide Print, HasType;
    ItemsOpen(p, a, items);
    if items[1..] != [] { ItemsOpen(p, a, items[1..]); }
    Splice(PrintItems(p, a, items, true), [], Print(p, a, items[0]), PrintItems(p, a, items[1..], false),
           PrintItems(p, a, items[1..], true), RBracket, rest);
  }

  lemma {:induction false} ItemsOpen(p: Codecs, a: Encoding, items: seq<Value>)
    requires items != []
    ensures PrintItems(p, a, items, true) == Print(p, a, items[0]) + PrintItems(p, a, items[1..], false)
    ensures PrintItems(p, a, items, false) == [Comma] + PrintItems(p, a, items, true)
  {
    hide Print, HasType;
  }

  lemma {:induction false} ItemsUnfold(p: Codecs, a: Encoding, items: seq<Value>, depth: nat)
    requires items != [] && AllTyped(p, a, items)
    ensures HasType(p, a, items[0]) && AllTyped(p, a, items[1..])
    ensures NormItems(p, a, items) == [Norm(p, a, items[0])] + NormItems(p, a, items[1..])
    ensures DeepestItem(p, a, items, depth) == Max(Deepest(p, a, items[0], depth), DeepestItem(p, a, items[1..], depth))
    ensures NormItems(p, a, []) == [] && DeepestItem(p, a, [], depth) == depth
  {
    hide HasType, Norm, Deepest;
  }

  lemma {:induction false} ItemsBack(p: Codecs, strict: bool, a: Encoding, items: seq<Value>, rest: seq<Token>,
                                     depth: nat, acc: seq<Value>)
    requires Accepted(p) && Linked(p) && Readable(p, a) && depth <= MAX_NESTING_DEPTH
    requires items != [] && AllTyped(p, a, items)
    ensures ReadItems(p, strict, a, ItemsFrom(p, a, items, rest), depth, acc)
            == Back(DeepestItem(p, a, items, depth), VList(acc + NormItems(p, a, items)), rest)
    decreases items, 0, 0
  {
    hide Print, PrintItems, Read, ReadItems, Norm, HasType, Accepted, Linked, Readable, ItemsFrom, StructsIn,
         Decodable, AllTyped, NormItems, DeepestItem, Deepest;
    var x := items[0];
    var tail := items[1..];
    var y := Norm(p, a, x);
    var toks := ItemsFrom(p, a, items, rest);
    ItemsText(p, a, items, rest);
    ItemsUnfold(p, a, items, depth);
    ReadBack(p, strict, a, x, ItemsAfter(p, a, tail, rest), depth);
    ItemStep(p, strict, a, toks, depth, acc, y, if tail == [] then rest else ItemsFrom(p, a, tail, rest));
    assert acc + NormItems(p, a, items) == acc + [y] + NormItems(p, a, tail);
    if tail == [] {
      assert acc + [y] + NormItems(p, a, tail) == acc + [y];
    } else {
      ItemsBack(p, strict, a, tail, rest, depth, acc + [y]);
    }
  }

  ghost predicate EntriesTyped(p: Codecs, a: Encoding, v: Value, ks: seq<string>) {
    v.VDict? && forall i :: 0 <= i < |ks| ==> ks[i] in v.entries && HasType(p, a, v.entries[ks[i]])
  }

  ghost function NormEntries(p: Codecs, a: Encoding, v: Value, ks: seq<string>,
                             acc: map<string, Value>): map<string, Value> {
    if ks == [] || !v.VDict? || ks[0] !in v.entries then acc
    else NormEntries(p, a, v, ks[1..], acc[ks[0] := Norm(p, a, v.entries[ks[0]])])
  }

  lemma {:induction false} NormEntriesAt(p: Codecs, a: Encoding, v: Value, ks: seq<string>, acc: map<string, Value>)
    requires EntriesTyped(p, a, v, ks)
    ensures var r := NormEntries(p, a, v, ks, acc);
      && r.Keys == acc.Keys + (set k | k in ks)
      && forall k :: k in r ==> r[k] == if k in ks then Norm(p, a, v.entries[k]) else acc[k]
    decreases |ks|
  {
    hide Norm, HasType;
    if ks != [] {
      NormEntriesAt(p, a, v, ks[1..], acc[ks[0] := Norm(p, a, v.entries[ks[0]])]);
      assert forall k :: k in ks <==> k == ks[0] || k in ks[1..];
    }
  }

  lemma {:induction false} DictBack(p: Codecs, strict: bool, a: Encoding, v: Value, rest: seq<Token>, depth: nat)
    requires Ready(p, EDict(a), v, depth)
    ensures Read(p, strict, EDict(a), Print(p, EDict(a), v) + rest, depth)
            == Back(Deepest(p, EDict(a), v, depth), Norm(p, EDict(a), v), rest)
    decreases v, 1, 1
  {
    hide Read, ReadEntries, Norm, Accepted, Linked, PrintEntries, SetToSeq, Sort, DeepestEntry;
    var ks := SortedKeys(v.entries.Keys);
    assert Print(p, EDict(a), v) + rest == [LBrace] + EntriesFrom(p, a, v, ks, rest);
    NormDict(p, a, v, ks);
    ObjectBack(p, strict, a, v, ks, rest, depth);
  }

  lemma {:induction false} ObjectBack(p: Codecs, strict: bool, a: Encoding, v: Value, ks: seq<string>,
                                      rest: seq<Token>, depth: nat)
    requires Accepted(p) && Linked(p) && Readable(p, a) && depth <= MAX_NESTING_DEPTH
    requires EntriesTyped(p, a, v, ks)
    ensures Read(p, strict, EDict(a), [LBrace] + EntriesFrom(p, a, v, ks, rest), depth)
            == Back(DeepestEntry(p, a, v, ks, depth + 1), VDict(NormEntries(p, a, v, ks, map[])), rest)
    decreases v, 1, 0
  {
    hide Read, ReadEntries, Norm, HasType, Accepted, Linked, Readable, Print;
    var body := EntriesFrom(p, a, v, ks, rest);
    DictShape(p, strict, a, body, depth);
    DeepestEntryGrows(p, a, v, ks, depth + 1);
    if depth + 1 > MAX_NESTING_DEPTH {
    } else if ks == [] {
      assert body == [RBrace] + rest;
      assert body[1..] == rest;
    } else {
      EntriesText(p, a, v, ks, rest);
      assert body[0] == Text(ks[0]);
      EntriesBack(p, strict, a, v, ks, rest, depth + 1, map[]);
    }
  }

  lemma {:induction false} NormDict(p: Codecs, a: Encoding, v: Value, ks: seq<string>)
    requires HasType(p, EDict(a), v) && forall k :: k in ks <==> k in v.entries
    ensures EntriesTyped(p, a, v, ks)
    ensures Norm(p, EDict(a), v) == VDict(NormEntries(p, a, v, ks, map[]))
  {
    NormEntriesAt(p, a, v, ks, map[]);
    var r := NormEntries(p, a, v, ks, map[]);
    assert r.Keys == v.entries.Keys;
    assert r == (map k | k in v.entries :: Norm(p, a, v.entries[k]));
  }

  lemma {:induction false} DeepestEntryGrows(p: Codecs, a: Encoding, v: Value, ks: seq<string>, depth: nat)
    ensures DeepestEntry(p, a, v, ks, depth) >= depth
  {
    if ks != [] { DeepestEntryGrows(p, a, v, ks[1..], depth); }
  }

  ghost function EntriesFrom(p: Codecs, a: Encoding, v: Value, ks: seq<string>, rest: seq<Token>): seq<Token> {
    PrintEntries(p, a, v, ks, true) + [RBrace] + rest
  }

  ghost function EntriesAfter(p: Codecs, a: Encoding, v: Value, ks: seq<string>, rest: seq<Token>): seq<Token> {
    if ks == [] then [RBrace] + rest else [Comma] + EntriesFrom(p, a, v, ks, rest)
  }

  lemma {:induction false} EntriesOpen(p: Codecs, a: Encoding, v: Value, ks: seq<string>)
    requires ks != [] && EntriesTyped(p, a, v, ks)
    ensures PrintEntries(p, a, v, ks, true)
            == [Text(ks[0]), Colon] + Print(p, a, v.entries[ks[0]]) + PrintEntries(p, a, v, ks[1..], false)
    ensures PrintEntries(p, a, v, ks, false) == [Comma] + PrintEntries(p, a, v, ks, true)
  {
    hide Print, HasType;
  }

  lemma {:induction false} EntriesText(p: Codecs, a: Encoding, v: Value, ks: seq<string>, rest: seq<Token>)
    requires ks != [] && EntriesTyped(p, a, v, ks)
    ensures EntriesFrom(p, a, v, ks, rest)
            == [Text(ks[0]), Colon] + (Print(p, a, v.entries[ks[0]]) + EntriesAfter(p, a, v, ks[1..], rest))
  {
    hide Print, HasType;
    EntriesOpen(p, a, v, ks);
    if ks[1..] != [] { EntriesOpen(p, a, v, ks[1..]); }
    Splice(PrintEntries(p, a, v, ks, true), [Text(ks[0]), Colon], Print(p, a, v.entries[ks[0]]),
           PrintEntries(p, a, v, ks[1..], false), PrintEntries(p, a, v, ks[1..], true), RBrace, rest);
  }

  lemma {:induction false} EntriesBack(p: Codecs, strict: bool, a: Encoding, v: Value, ks: seq<string>,
                                       rest: seq<Token>, depth: nat, acc: map<string, Value>)
    requires Accepted(p) && Linked(p) && Readable(p, a) && depth <= MAX_NESTING_DEPTH
    requires ks != [] && EntriesTyped(p, a, v, ks)
    ensures ReadEntries(p, strict, a, EntriesFrom(p, a, v, ks, rest), depth, acc)
            == Back(DeepestEntry(p, a, v, ks, depth), VDict(NormEntries(p, a, v, ks, acc)), rest)
    decreases v, 0, |ks|
  {
    hide Print, PrintEntries, Read, ReadEntries, Norm, HasType, Accepted, Linked, Readable, SortedKeys;
    var x := v.entries[ks[0]];
    var tail := ks[1..];
    var y := Norm(p, a, x);
    EntriesText(p, a, v, ks, rest);
    ReadBack(p, strict, a, x, EntriesAfter(p, a, v, tail, rest), depth);
    EntryStep(p, strict, a, ks[0], Print(p, a, x) + EntriesAfter(p, a, v, tail, rest), depth, acc, y,
              if tail == [] then rest else EntriesFrom(p, a, v, tail, rest));
    if tail != [] {
      EntriesBack(p, strict, a, v, tail, rest, depth, acc[ks[0] := y]);
    }
  }

  // --- structs ------------------------------------------------------------------------

  /** What the object loop does once a member has been read. */
  function AfterMember(p: Codecs, strict: bool, c: Codec, toks: seq<Token>, depth: nat,
                       slots: map<string, Value>): Outcome<(map<string, Value>, seq<Token>)> {
    if StartsWith(toks, Comma) then ReadMembers(p, strict, c, toks[1..], depth, slots)
    else if StartsWith(toks, RBrace) then Ok((slots, toks[1..]))
    else Failed(Expected(RBrace))
  }

  /** The slots the written fields of `ms` fill. */
  ghost function Filled(p: Codecs, ms: seq<Member>, v: Value, slots: map<string, Value>): map<string, Value> {
    if ms == [] then slots
    else if WrittenIn(ms[0], v) then
      Filled(p, ms[1..], v, slots[ms[0].name := Norm(p, ms[0].encoding, v.fields[ms[0].name])])
    else Filled(p, ms[1..], v, slots)
  }

  /** A decodable struct of the plan, and a value of it. */
  ghost predicate ReadyFields(p: Codecs, c: Codec, v: Value, depth: nat) {
    && Accepted(p) && Linked(p) && depth <= MAX_NESTING_DEPTH
    && c.name in p && p[c.name] == c && Decodable(c) && HasType(p, EStruct(c.name), v)
  }

  lemma {:induction false} FieldForOwn(c: Codec, k: nat)
    requires SoundCodec(c) && k < |c.members| && c.members[k].Field?
    ensures FieldFor(c, c.members[k].json) == Some(k)
  {
  }

  lemma {:induction false} MemberReady(p: Codecs, c: Codec, v: Value, depth: nat, k: nat)
    requires ReadyFields(p, c, v, depth) && k < |c.members|
    ensures c.members[k].Field? && c.members[k].name in v.fields
    ensures Ready(p, c.members[k].encoding, v.fields[c.members[k].name], depth)
    ensures FieldFor(c, c.members[k].json) == Some(k)
  {
    assert SoundCodec(p[c.name]);
  }

  lemma {:induction false} MembersBack(p: Codecs, strict: bool, c: Codec, k: nat, v: Value, rest: seq<Token>,
                                       depth: nat, slots: map<string, Value>)
    requires ReadyFields(p, c, v, depth) && k <= |c.members|
    ensures AfterMember(p, strict, c, PrintFields(p, c.members[k..], v, false) + [RBrace] + rest, depth, slots)
            == Back(DeepestField(p, c.members[k..], v, depth), Filled(p, c.members[k..], v, slots), rest)
    ensures AnyWritten(c.members[k..], v) ==>
           ReadMembers(p, strict, c, PrintFields(p, c.members[k..], v, true) + [RBrace] + rest, depth, slots)
           == Back(DeepestField(p, c.members[k..], v, depth), Filled(p, c.members[k..], v, slots), rest)
    decreases v, 0, |c.members| - k, 1
  {
    hide Print, Read, ReadMembers, HasType, Norm, Deepest, PrintField;
    var ms := c.members[k..];
    FieldsOpen(p, ms, v);
    var closed := PrintFields(p, ms, v, false) + [RBrace] + rest;
    if AnyWritten(ms, v) {
      var next := PrintFields(p, ms, v, true) + [RBrace] + rest;
      assert closed == [Comma] + next;
      assert closed[1..] == next;
      assert ms[1..] == c.members[k + 1..];
      if WrittenIn(ms[0], v) {
        FieldBack(p, strict, c, k, v, rest, depth, slots);
      } else {
        MembersBack(p, strict, c, k + 1, v, rest, depth, slots);
      }
    } else {
      assert closed == [RBrace] + rest;
      assert closed[1..] == rest;
      NothingFilled(p, ms, v, depth, slots);
    }
  }

  lemma {:induction false} NothingFilled(p: Codecs, ms: seq<Member>, v: Value, depth: nat, slots: map<string, Value>)
    requires !AnyWritten(ms, v)
    ensures Filled(p, ms, v, slots) == slots && DeepestField(p, ms, v, depth) == depth
  {
    if ms != [] { NothingFilled(p, ms[1..], v, depth, slots); }
  }

  lemma {:induction false} DeepestFieldGrows(p: Codecs, ms: seq<Member>, v: Value, depth: nat)
    ensures DeepestField(p, ms, v, depth) >= depth
  {
    if ms != [] { DeepestFieldGrows(p, ms[1..], v, depth); }
  }

  lemma {:induction false} FieldText(p: Codecs, ms: seq<Member>, v: Value, rest: seq<Token>)
    requires ms != [] && WrittenIn(ms[0], v)
    ensures PrintFields(p, ms, v, true) + [RBrace] + rest
            == [Text(ms[0].json), Colon]
               + (Print(p, ms[0].encoding, v.fields[ms[0].name]) + (PrintFields(p, ms[1..], v,
                     false) + [RBrace] + rest))
  {
    assert PrintFields(p, ms, v, true) == PrintField(p, ms[0], v) + PrintFields(p, ms[1..], v, false);
  }

  lemma {:induction false} FieldBack(p: Codecs, strict: bool, c: Codec, k: nat, v: Value, rest: seq<Token>,
                                     depth: nat, slots: map<string, Value>)
    requires ReadyFields(p, c, v, depth) && k < |c.members|
    requires WrittenIn(c.members[k], v)
    ensures ReadMembers(p, strict, c, PrintFields(p, c.members[k..], v, true) + [RBrace] + rest, depth, slots)
            == Back(DeepestField(p, c.members[k..], v, depth), Filled(p, c.members[k..], v, slots), rest)
    decreases v, 0, |c.members| - k, 0
  {
    var ms := c.members[k..];
    var m := ms[0];
    var x := v.fields[m.name];
    assert ms[1..] == c.members[k + 1..];
    var after := PrintFields(p, ms[1..], v, false) + [RBrace] + rest;
    var text := Print(p, m.encoding, x) + after;
    FieldText(p, ms, v, rest);
    MemberReady(p, c, v, depth, k);
    ReadBack(p, strict, m.encoding, x, after, depth);
    MemberStep(p, strict, c, m.json, text, depth, slots);
    MembersBack(p, strict, c, k + 1, v, rest, depth, slots[m.name := Norm(p, m.encoding, x)]);
  }

  ghost predicate DistinctNames(ms: seq<Member>) {
    forall i, j :: 0 <= i < j < |ms| ==> ms[i].name != ms[j].name
  }

  /** After all the fields, a slot is filled exactly when its field was written. */
  lemma {:induction false} FilledAt(p: Codecs, ms: seq<Member>, v: Value, slots: map<string, Value>, name: string)
    requires DistinctNames(ms)
    ensures Get(Filled(p, ms, v, slots), name) ==
      match MemberNamed(ms, name)
      case Some(m) => if WrittenIn(m, v) then Some(Norm(p, m.encoding, v.fields[m.name])) else Get(slots, name)
      case None => Get(slots, name)
  {
    if ms != [] {
      var m := ms[0];
      var now := if WrittenIn(m, v) then slots[m.name := Norm(p, m.encoding, v.fields[m.name])] else slots;
      FilledAt(p, ms[1..], v, now, name);
      if m.name == name { NotNamedAgain(ms[1..], name); }
    }
  }

  lemma {:induction false} NotNamedAgain(ms: seq<Member>, name: string)
    requires forall i :: 0 <= i < |ms| ==> ms[i].name != name
    ensures MemberNamed(ms, name) == None
  {
    if ms != [] { NotNamedAgain(ms[1..], name); }
  }

  lemma {:induction false} MemberNamedAt(ms: seq<Member>, k: nat)
    requires DistinctNames(ms) && k < |ms|
    ensures MemberNamed(ms, ms[k].name) == Some(ms[k])
  {
    if k > 0 { MemberNamedAt(ms[1..], k - 1); }
  }

  lemma {:induction false} EmptyIsEmptyOf(p: Codecs, e: Encoding, v: Value)
    requires HasType(p, e, v) && Absent(e) && EmptyValue(v)
    ensures v == EmptyOf(e)
  {
    if e.EDict? { assert v.entries == map[]; }
  }

  /** What the struct holds when `Finish` has run over the slots from field `i` on. */
  ghost predicate Finished(p: Codecs, c: Codec, v: Value, i: nat, r: map<string, Value>)
    requires v.VStruct?
  {
    && r.Keys == (set j | i <= j < |c.members| :: c.members[j].name)
    && forall j :: i <= j < |c.members| ==>
         c.members[j].name in v.fields && r[c.members[j].name] == NormField(p, c.members, v, c.members[j].name)
  }

  lemma {:induction false} FinishedStep(p: Codecs, c: Codec, v: Value, i: nat, r: map<string, Value>, x: Value)
    requires v.VStruct? && i < |c.members| && Finished(p, c, v, i + 1, r)
    requires DistinctNames(c.members) && c.members[i].name in v.fields
    requires x == NormField(p, c.members, v, c.members[i].name)
    ensures Finished(p, c, v, i, r[c.members[i].name := x])
  {
  }

  lemma {:induction false} SlotBack(p: Codecs, c: Codec, v: Value, i: nat)
    requires ReadyFields(p, c, v, 0) && i < |c.members|
    ensures var m := c.members[i]; var slots := Filled(p, c.members, v, map[]);
      && m.Field? && m.name in v.fields
      && (m.name in slots || Absent(m.encoding))
      && (if m.name in slots then slots[m.name] else EmptyOf(m.encoding)) == NormField(p, c.members, v, m.name)
  {
    var m := c.members[i];
    MemberReady(p, c, v, 0, i);
    MemberNamedAt(c.members, i);
    FilledAt(p, c.members, v, map[], m.name);
    if !Written(m, v.fields[m.name]) { EmptyIsEmptyOf(p, m.encoding, v.fields[m.name]); }
  }

  lemma {:induction false} FinishBack(p: Codecs, c: Codec, v: Value, i: nat)
    requires ReadyFields(p, c, v, 0) && i <= |c.members|
    ensures var r := Finish(c, Filled(p, c.members, v, map[]), i); r.Ok? && Finished(p, c, v, i, r.value)
    decreases |c.members| - i
  {
    if i < |c.members| {
      FinishBack(p, c, v, i + 1);
      SlotBack(p, c, v, i);
      var rest := Finish(c, Filled(p, c.members, v, map[]), i + 1).value;
      FinishedStep(p, c, v, i, rest, NormField(p, c.members, v, c.members[i].name));
    }
  }

  lemma {:induction false} NormIsFinish(p: Codecs, c: Codec, v: Value, r: map<string, Value>)
    requires ReadyFields(p, c, v, 0) && Finished(p, c, v, 0, r)
    ensures Norm(p, EStruct(c.name), v) == VStruct(r)
  {
    var f := Norm(p, EStruct(c.name), v).fields;
    assert f.Keys == v.fields.Keys == r.Keys;
    forall k | k in f ensures f[k] == r[k] {
      var j :| 0 <= j < |c.members| && c.members[j].name == k;
    }
    assert f == r;
  }

  lemma {:induction false} FinishingBack(p: Codecs, c: Codec, v: Value, rest: seq<Token>, deepest: nat)
    requires ReadyFields(p, c, v, 0)
    ensures Finishing(c, Back(deepest, Filled(p, c.members, v, map[]), rest))
      == Back(deepest, Norm(p, EStruct(c.name), v), rest)
  {
    FinishBack(p, c, v, 0);
    NormIsFinish(p, c, v, Finish(c, Filled(p, c.members, v, map[]), 0).value);
  }

  lemma {:induction false} StructText(p: Codecs, n: string, v: Value, rest: seq<Token>)
    requires n in p && v.VStruct?
    ensures Print(p, EStruct(n), v) + rest == [LBrace] + (PrintFields(p, p[n].members, v, true) + [RBrace] + rest)
  {
    assert [LBrace] + PrintFields(p, p[n].members, v, true) + [RBrace] + rest
        == [LBrace] + (PrintFields(p, p[n].members, v, true) + [RBrace] + rest);
  }

  lemma {:induction false} StructBack(p: Codecs, strict: bool, n: string, v: Value, rest: seq<Token>, depth: nat)
    requires Ready(p, EStruct(n), v, depth)
    ensures ReadStruct(p, strict, n, Print(p, EStruct(n), v) + rest, depth)
            == Back(Deepest(p, EStruct(n), v, depth), Norm(p, EStruct(n), v), rest)
    decreases v, 1, 2
  {
    assert n in StructsIn(EStruct(n));
    StructText(p, n, v, rest);
    ReadyStructBack(p, strict, p[n], v, rest, depth);
  }

  lemma {:induction false} ReadyStructBack(p: Codecs, strict: bool, c: Codec, v: Value, rest: seq<Token>, depth: nat)
    requires ReadyFields(p, c, v, depth)
    ensures ReadStruct(p, strict, c.name, [LBrace] + (PrintFields(p, c.members, v, true) + [RBrace] + rest), depth)
            == Back(DeepestField(p, c.members, v, depth + 1), Norm(p, EStruct(c.name), v), rest)
    decreases v, 1, 1
  {
    hide Read, ReadMembers, PrintFields, HasType, Norm, Print;
    StructShape(p, strict, c.name, PrintFields(p, c.members, v, true) + [RBrace] + rest, depth);
    if depth + 1 > MAX_NESTING_DEPTH {
      DeepestFieldGrows(p, c.members, v, depth + 1);
    } else {
      AllMembersBack(p, strict, c, v, rest, depth + 1);
      FinishingBack(p, c, v, rest, DeepestField(p, c.members, v, depth + 1));
    }
  }

  lemma {:induction false} AllMembersBack(p: Codecs, strict: bool, c: Codec, v: Value, rest: seq<Token>, depth: nat)
    requires ReadyFields(p, c, v, depth)
    ensures var body := PrintFields(p, c.members, v, true) + [RBrace] + rest;
      (if StartsWith(body, RBrace) then Ok((map[], body[1..])) else ReadMembers(p, strict, c, body, depth, map[]))
      == Back(DeepestField(p, c.members, v, depth), Filled(p, c.members, v, map[]), rest)
    decreases v, 1, 0
  {
    var body := PrintFields(p, c.members, v, true) + [RBrace] + rest;
    assert c.members[0..] == c.members;
    FieldsOpen(p, c.members, v);
    if AnyWritten(c.members, v) {
      MembersBack(p, strict, c, 0, v, rest, depth, map[]);
    } else {
      assert body[1..] == rest;
      NothingFilled(p, c.members, v, depth, map[]);
    }
  }
}
